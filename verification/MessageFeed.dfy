/** The bounded message buffer of a bot and the feed that reads it through a "last pushed id" cursor. */
module MessageFeed {
  import opened Common

  const BUFFER_SIZE := 200

  datatype Message = Message(id: int, body: string)

  /** `deque(maxlen=200).append`: a full buffer drops its oldest message. */
  function Append(ring: seq<Message>, m: Message): seq<Message> {
    if |ring| < BUFFER_SIZE then ring + [m] else ring[|ring| - BUFFER_SIZE + 1..] + [m]
  }

  function Reverse(s: seq<Message>): seq<Message> { if s == [] then [] else Reverse(s[1..]) + [s[0]] }

  /** `items[:limit]` of the reversed buffer: the newest `limit` messages, newest first. A negative limit, which no
      caller is kept from giving, leaves off as many of the oldest. */
  function Newest(ring: seq<Message>, limit: int): seq<Message> {
    var r := Reverse(ring);
    if limit >= |r| then r else if limit >= 0 then r[..limit] else if |r| + limit >= 0 then r[..|r| + limit] else []
  }

  /** What follows the first message with the given id; without a match, nothing is recognised. */
  function After(all: seq<Message>, id: int): Option<seq<Message>> {
    if all == [] then None
    else if all[0].id == id then Some(all[1..])
    else After(all[1..], id)
  }

  /** The messages a wake-up sends: those after the cursor, or everything when the cursor is unknown. */
  function NewMessages(all: seq<Message>, last: Option<int>): seq<Message> {
    if last.None? then all
    else match After(all, last.value)
      case Some(rest) => rest
      case None => all
  }

  lemma {:induction false} ReverseTwice(s: seq<Message>)
    ensures |Reverse(s)| == |s| && Reverse(Reverse(s)) == s
  {
    if s != [] {
      ReverseTwice(s[1..]);
      ReverseAppend(Reverse(s[1..]), s[0]);
      assert s == [s[0]] + s[1..];
    }
  }

  lemma {:induction false} ReverseAppend(s: seq<Message>, m: Message)
    ensures Reverse(s + [m]) == [m] + Reverse(s)
  {
    if s == [] {
      assert Reverse([m][1..]) == [];
    } else {
      ReverseAppend(s[1..], m);
      assert (s + [m])[1..] == s[1..] + [m];
    }
  }

  /** Reading 200 newest-first and reversing gives back the buffer, oldest first. */
  lemma ReadOldestFirst(ring: seq<Message>)
    requires |ring| <= BUFFER_SIZE
    ensures Reverse(Newest(ring, 200)) == ring
  {
    ReverseTwice(ring);
  }

  lemma {:induction false} ReverseAt(s: seq<Message>, k: nat)
    requires k < |s|
    ensures |Reverse(s)| == |s| && Reverse(s)[k] == s[|s| - 1 - k]
  {
    ReverseTwice(s);
    ReverseTwice(s[1..]);
    if k < |s| - 1 { ReverseAt(s[1..], k); }
  }

  /** A read returns as many messages as it may, the newest first; one with a negative limit all but so many. */
  lemma NewestExact(ring: seq<Message>, limit: int, k: nat)
    ensures var r := Newest(ring, limit);
            && (limit >= 0 ==> |r| == if limit < |ring| then limit else |ring|)
            && (limit < 0 ==> |r| == if -limit < |ring| then |ring| + limit else 0)
            && (k < |r| ==> r[k] == ring[|ring| - 1 - k])
  {
    ReverseTwice(ring);
    if k < |ring| { ReverseAt(ring, k); }
  }

  lemma {:induction false} AfterAt(all: seq<Message>, id: int, p: nat)
    requires p < |all| && all[p].id == id && forall k :: 0 <= k < p ==> all[k].id != id
    ensures After(all, id) == Some(all[p + 1..])
  {
    if p > 0 {
      AfterAt(all[1..], id, p - 1);
      assert all[1..][p..] == all[p + 1..];
    }
  }

  lemma {:induction false} AfterMissing(all: seq<Message>, id: int)
    requires forall k :: 0 <= k < |all| ==> all[k].id != id
    ensures After(all, id) == None
  {
    if all != [] { AfterMissing(all[1..], id); }
  }

  /** With the last pushed message at position `p`, the scan resumes right behind it exactly when no older
      message in the buffer carries the same id; otherwise it sends messages again. */
  lemma CursorExact(all: seq<Message>, id: int, p: nat)
    requires p < |all| && all[p].id == id
    ensures NewMessages(all, Some(id)) == all[p + 1..] <==> forall k :: 0 <= k < p ==> all[k].id != id
  {
    var f := FirstAt(all, id, p);
    AfterAt(all, id, f);
    if f < p {
      assert |all[f + 1..]| != |all[p + 1..]|;
    }
  }

  /** With the id of the oldest message repeated at the cursor, everything after the oldest is sent again. */
  lemma CursorExample()
    ensures var a, b, c := Message(1, "a"), Message(2, "b"), Message(1, "c");
            NewMessages([a, b, c], Some(c.id)) == [b, c]
  {
    var a, b, c := Message(1, "a"), Message(2, "b"), Message(1, "c");
    assert [a, b, c][1..] == [b, c];
  }

  lemma {:induction false} FirstAt(all: seq<Message>, id: int, p: nat) returns (f: nat)
    requires p < |all| && all[p].id == id
    ensures f <= p && all[f].id == id && forall k :: 0 <= k < f ==> all[k].id != id
    decreases p
  {
    if k :| 0 <= k < p && all[k].id == id {
      f := FirstAt(all, id, k);
    } else {
      f := p;
    }
  }

  // ---- runs ----

  /** `pushed` is every message that ever arrived; `sentAt` are the positions in it of what was sent. */
  datatype State = State(
    pushed: seq<Message>, ring: seq<Message>,
    subscribed: bool, last: Option<int>, sent: seq<Message>, sentAt: seq<nat>)

  datatype Event = Push(m: Message) | Cleanup | Subscribe | Deliver

  const INIT := State([], [], false, None, [], [])

  function Range(from: nat, to: nat): (r: seq<nat>)
    requires from <= to
    ensures |r| == to - from && forall k :: 0 <= k < |r| ==> r[k] == from + k
  {
    seq(to - from, k requires 0 <= k < to - from => from + k)
  }

  ghost predicate Enabled(s: State, e: Event) {
    match e
    case Push(m) => forall k :: 0 <= k < |s.pushed| ==> s.pushed[k].id != m.id
    case Cleanup => true
    case Subscribe => !s.subscribed
    case Deliver => s.subscribed
  }

  /** Sending a batch moves the cursor to its last message. */
  function Send(s: State, batch: seq<Message>): State {
    if batch == [] || |batch| > |s.pushed| then s
    else s.(last := Some(batch[|batch| - 1].id), sent := s.sent + batch,
            sentAt := s.sentAt + Range(|s.pushed| - |batch|, |s.pushed|))
  }

  function Next(s: State, e: Event): State {
    match e
    case Push(m) => s.(pushed := s.pushed + [m], ring := Append(s.ring, m))
    case Cleanup => s.(ring := [])
    case Subscribe => Send(s.(subscribed := true), s.ring)
    case Deliver => Send(s, NewMessages(s.ring, s.last))
  }

  ghost predicate IsRun(trace: seq<State>, events: seq<Event>) {
    && |trace| == |events| + 1 && trace[0] == INIT
    && forall i :: 0 <= i < |events| ==> StepAt(trace, events, i)
  }

  ghost predicate StepAt(trace: seq<State>, events: seq<Event>, i: int) {
    && 0 <= i < |events| < |trace|
    && Enabled(trace[i], events[i]) && trace[i + 1] == Next(trace[i], events[i])
  }

  predicate IsDelivery(e: Event) { e.Subscribe? || e.Deliver? }

  /** The first position still in the buffer. */
  function Oldest(s: State): int { |s.pushed| - |s.ring| }

  /** The first position behind the cursor. */
  function Cursor(s: State): int { if s.sentAt == [] then 0 else s.sentAt[|s.sentAt| - 1] + 1 }

  ghost predicate DistinctIds(s: seq<Message>) { forall i, j :: 0 <= i < j < |s| ==> s[i].id != s[j].id }

  ghost predicate Buffered(s: State) {
    && |s.ring| <= BUFFER_SIZE && Oldest(s) >= 0 && s.ring == s.pushed[Oldest(s)..]
    && DistinctIds(s.pushed)
  }

  /** Everything sent is in arrival order without repeats, and the cursor names the last of it. */
  ghost predicate InOrder(s: State) {
    && |s.sent| == |s.sentAt|
    && (forall k :: 0 <= k < |s.sent| ==> s.sentAt[k] < |s.pushed| && s.sent[k] == s.pushed[s.sentAt[k]])
    && (forall k, l :: 0 <= k < l < |s.sentAt| ==> s.sentAt[k] < s.sentAt[l])
    && (s.last.None? <==> s.sent == [])
    && (s.last.Some? ==> s.last == Some(s.pushed[Cursor(s) - 1].id))
    && (!s.subscribed ==> s.sent == [])
  }

  /** The batch of a delivery is everything behind the cursor that is still in the buffer. */
  lemma BatchExact(s: State)
    requires Buffered(s) && InOrder(s)
    ensures NewMessages(s.ring, s.last) == s.pushed[if Cursor(s) > Oldest(s) then Cursor(s) else Oldest(s)..]
  {
    if s.last.Some? {
      var c := Cursor(s);
      if c - 1 >= Oldest(s) {
        var p := c - 1 - Oldest(s);
        assert forall k :: 0 <= k < |s.ring| ==> s.ring[k] == s.pushed[Oldest(s) + k];
        AfterAt(s.ring, s.last.value, p);
        assert s.ring[p + 1..] == s.pushed[c..];
      } else {
        assert forall k :: 0 <= k < |s.ring| ==> s.ring[k] == s.pushed[Oldest(s) + k];
        AfterMissing(s.ring, s.last.value);
      }
    }
  }

  function From(s: State): int { if Cursor(s) > Oldest(s) then Cursor(s) else Oldest(s) }

  lemma DeliverIsSend(s: State, e: Event)
    requires Buffered(s) && InOrder(s) && Enabled(s, e) && IsDelivery(e) && Cursor(s) <= |s.pushed|
    ensures 0 <= From(s) <= |s.pushed|
    ensures Next(s, e) == Send(s.(subscribed := true), s.pushed[From(s)..])
  {
    if e.Deliver? { BatchExact(s); }
  }

  lemma SendPositions(s: State, from: nat)
    requires |s.sent| == |s.sentAt| && from < |s.pushed|
    ensures var s', n := Send(s, s.pushed[from..]), |s.sent|;
            && |s'.sent| == |s'.sentAt| == n + |s.pushed| - from
            && (forall k :: 0 <= k < n ==> s'.sentAt[k] == s.sentAt[k] && s'.sent[k] == s.sent[k])
            && (forall k :: n <= k < n + |s.pushed| - from ==>
                  s'.sentAt[k] == from + (k - n) && s'.sent[k] == s.pushed[from + (k - n)])
  {}

  lemma SendKeepsOrder(s: State, from: nat)
    requires s.subscribed && Cursor(s) <= from <= |s.pushed| && InOrder(s)
    ensures var s' := Send(s, s.pushed[from..]);
            InOrder(s') && Cursor(s') == if from < |s.pushed| then |s.pushed| else Cursor(s)
  {
    if from < |s.pushed| {
      SendPositions(s, from);
      assert forall k :: 0 <= k < |s.sentAt| ==> s.sentAt[k] < Cursor(s);
    }
  }

  lemma SendAdds(s: State, from: nat, i: nat)
    requires |s.sent| == |s.sentAt| && from <= |s.pushed|
    ensures i in Send(s, s.pushed[from..]).sentAt <==> i in s.sentAt || from <= i < |s.pushed|
  {
    if from < |s.pushed| {
      SendPositions(s, from);
      var s' := Send(s, s.pushed[from..]);
      if i in s.sentAt {
        var k :| 0 <= k < |s.sentAt| && s.sentAt[k] == i;
        assert s'.sentAt[k] == i;
      }
      if from <= i < |s.pushed| { assert s'.sentAt[|s.sent| + (i - from)] == i; }
    }
  }

  lemma PushStep(s: State, m: Message)
    requires Buffered(s) && InOrder(s) && Enabled(s, Push(m))
    ensures Buffered(Next(s, Push(m))) && InOrder(Next(s, Push(m)))
    ensures Oldest(Next(s, Push(m))) >= Oldest(s)
  {
    var s' := Next(s, Push(m));
    assert forall k :: 0 <= k < |s.ring| ==> s.ring[k] == s.pushed[Oldest(s) + k];
    assert s'.ring == s'.pushed[Oldest(s')..];
  }

  /** A delivery leaves the buffer alone, keeps the order and adds exactly the positions from `From` on. */
  lemma DeliveryStep(s: State, e: Event, n: nat)
    requires Buffered(s) && InOrder(s) && Enabled(s, e) && IsDelivery(e) && Cursor(s) <= |s.pushed|
    ensures var s' := Next(s, e);
            && s'.pushed == s.pushed && s'.ring == s.ring && InOrder(s') && Cursor(s') <= |s.pushed|
            && (n in s'.sentAt <==> n in s.sentAt || From(s) <= n < |s.pushed|)
  {
    var s1 := s.(subscribed := true);
    DeliverIsSend(s, e);
    DeliveredSend(s1, From(s), n);
    assert From(s) >= Cursor(s) && Cursor(s1) == Cursor(s);
  }

  lemma DeliveredSend(s: State, from: nat, n: nat)
    requires s.subscribed && Cursor(s) <= from <= |s.pushed| && InOrder(s)
    ensures var s' := Send(s, s.pushed[from..]);
            && s'.pushed == s.pushed && s'.ring == s.ring && InOrder(s') && Cursor(s') <= |s.pushed|
            && (n in s'.sentAt <==> n in s.sentAt || from <= n < |s.pushed|)
  {
    SendKeepsOrder(s, from);
    SendAdds(s, from, n);
  }

  lemma InvStep(s: State, e: Event)
    requires Buffered(s) && InOrder(s) && Enabled(s, e) && Cursor(s) <= |s.pushed|
    ensures Buffered(Next(s, e)) && InOrder(Next(s, e))
    ensures Oldest(Next(s, e)) >= Oldest(s)
    ensures Cursor(Next(s, e)) <= |Next(s, e).pushed|
  {
    if e.Push? {
      PushStep(s, e.m);
    } else if IsDelivery(e) {
      DeliveryStep(s, e, 0);
    }
  }

  ghost predicate Good(s: State) { Buffered(s) && InOrder(s) && Cursor(s) <= |s.pushed| }

  lemma RunStep(trace: seq<State>, events: seq<Event>, i: nat, n: nat)
    requires IsRun(trace, events) && i < |events| && Good(trace[i])
    ensures var s, s' := trace[i], trace[i + 1];
            && Good(s') && Oldest(s') >= Oldest(s) && |s'.pushed| >= |s.pushed|
            && (n in s'.sentAt <==> n in s.sentAt || (IsDelivery(events[i]) && From(s) <= n < |s.pushed|))
            && s.sent <= s'.sent
            && (Cursor(s') == Cursor(s) || (IsDelivery(events[i]) && Cursor(s') <= |s.pushed|))
  {
    assert StepAt(trace, events, i);
    InvStep(trace[i], events[i]);
    if IsDelivery(events[i]) { DeliveryStep(trace[i], events[i], n); }
  }

  lemma {:induction false} InvHolds(trace: seq<State>, events: seq<Event>, i: nat)
    requires IsRun(trace, events) && i < |trace|
    ensures Good(trace[i])
  {
    if i > 0 {
      InvHolds(trace, events, i - 1);
      RunStep(trace, events, i - 1, 0);
    }
  }

  /** A subscriber is only ever sent messages in arrival order, none twice, and nothing is taken back. */
  lemma FeedInOrder(trace: seq<State>, events: seq<Event>, i: nat)
    requires IsRun(trace, events) && i < |events|
    ensures InOrder(trace[i + 1]) && trace[i].sent <= trace[i + 1].sent
  {
    InvHolds(trace, events, i);
    RunStep(trace, events, i, 0);
  }

  /** Message `n` arrived before delivery `k` and after the one before it. */
  ghost predicate FirstDelivery(trace: seq<State>, events: seq<Event>, n: nat, k: nat) {
    && k < |events| < |trace| && IsDelivery(events[k]) && n < |trace[k].pushed|
    && forall l :: 0 <= l < k && IsDelivery(events[l]) ==> n >= |trace[l].pushed|
  }

  /** Completeness: once a delivery has happened after the arrival of message `n`, the subscriber has it if
      and only if it was still in the buffer at the first such delivery. */
  lemma {:induction false} SentUnlessEvicted(trace: seq<State>, events: seq<Event>, n: nat, k: nat, j: nat)
    requires IsRun(trace, events) && FirstDelivery(trace, events, n, k) && k < j < |trace|
    ensures n in trace[j].sentAt <==> n >= Oldest(trace[k])
    ensures n < |trace[j].pushed| && Oldest(trace[k]) <= Oldest(trace[j])
    decreases j
  {
    InvHolds(trace, events, j - 1);
    RunStep(trace, events, j - 1, n);
    if j == k + 1 {
      CursorBeforeArrival(trace, events, n, k);
    } else {
      SentUnlessEvicted(trace, events, n, k, j - 1);
    }
  }

  lemma {:induction false} CursorBehind(trace: seq<State>, events: seq<Event>, n: nat, i: nat)
    requires IsRun(trace, events) && i < |trace|
    requires forall l :: 0 <= l < i && IsDelivery(events[l]) ==> n >= |trace[l].pushed|
    ensures Cursor(trace[i]) <= n
  {
    if i > 0 {
      CursorBehind(trace, events, n, i - 1);
      InvHolds(trace, events, i - 1);
      RunStep(trace, events, i - 1, n);
    }
  }

  lemma CursorBeforeArrival(trace: seq<State>, events: seq<Event>, n: nat, k: nat)
    requires IsRun(trace, events) && FirstDelivery(trace, events, n, k)
    ensures Cursor(trace[k]) <= n && n !in trace[k].sentAt
  {
    CursorBehind(trace, events, n, k);
    InvHolds(trace, events, k);
  }

  /** The buffer holds exactly the last 200 messages, or all that arrived since the last cleanup, if those are fewer. */
  lemma {:induction false} RingHoldsLast(trace: seq<State>, events: seq<Event>, c: nat, i: nat)
    requires IsRun(trace, events) && c <= i < |trace| && (c == 0 || events[c - 1].Cleanup?)
    requires forall k :: c <= k < i ==> !events[k].Cleanup?
    ensures var arrived := |trace[i].pushed| - |trace[c].pushed|;
            arrived >= 0 && |trace[i].ring| == if arrived < 200 then arrived else 200
    ensures var ring, pushed := trace[i].ring, trace[i].pushed;
            |ring| <= |pushed| && ring == pushed[|pushed| - |ring|..]
    decreases i
  {
    InvHolds(trace, events, i);
    if i == c {
      if c > 0 { assert StepAt(trace, events, c - 1); }
    } else {
      RingHoldsLast(trace, events, c, i - 1);
      assert StepAt(trace, events, i - 1);
    }
  }

  class MessageBuffers {
    var buffers: map<string, seq<Message>>

    constructor ()
      ensures buffers == map[]
    {
      buffers := map[];
    }

    ghost function Ring(name: string): seq<Message>
      reads this
    {
      if name in buffers then buffers[name] else []
    }

    method PushMessage(name: string, m: Message)
      modifies this
      ensures buffers == old(buffers)[name := Append(old(Ring(name)), m)]
    {
      var buf := if name in buffers then buffers[name] else [];
      if |buf| >= BUFFER_SIZE {
        buf := buf[|buf| - BUFFER_SIZE + 1..];
      }
      buffers := buffers[name := buf + [m]];
    }

    method Cleanup(name: string)
      modifies this
      ensures buffers == old(buffers) - {name}
    {
      buffers := buffers - {name};
    }

    method GetMessages(name: string, limit: int) returns (items: seq<Message>)
      ensures items == Newest(Ring(name), limit)
    {
      if name !in buffers {
        return [];
      }
      items := Reverse(buffers[name]);
      var end := if limit < 0 then |items| + limit else limit;
      items := if end < 0 then [] else if end < |items| then items[..end] else items;
    }

    /** One round of the feed: read, reverse, and scan for the cursor. */
    method NextBatch(name: string, last: Option<int>) returns (batch: seq<Message>)
      requires |Ring(name)| <= BUFFER_SIZE
      ensures batch == NewMessages(Ring(name), last)
    {
      var all := GetMessages(name, BUFFER_SIZE);
      ReadOldestFirst(Ring(name));
      all := Reverse(all);
      if last.None? {
        return all;
      }
      batch := [];
      var found := false;
      var i := 0;
      while i < |all|
        invariant 0 <= i <= |all|
        invariant !found ==> batch == [] && After(all, last.value) == After(all[i..], last.value)
        invariant found ==> After(all, last.value) == Some(batch + all[i..])
      {
        assert all[i..][1..] == all[i + 1..];
        if found {
          assert batch + all[i..] == (batch + [all[i]]) + all[i + 1..];
          batch := batch + [all[i]];
        } else if all[i].id == last.value {
          found := true;
          assert [] + all[i + 1..] == all[i + 1..];
        }
        i := i + 1;
      }
      if !found {
        batch := all;
      }
    }
  }
}
