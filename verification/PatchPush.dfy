/** The public push channel: one full snapshot, then diffs of the container list and of the QR states.
    A client that applies the patches is a replica of what the server pushed last. */
module PatchPush {
  import opened Common

  type Name = string
  /** What a list entry and a QR state say beyond their name is compared as a whole. */
  datatype Container = Container(name: Name, body: string)
  type QrStates = map<Name, string>

  datatype ListPatch = ListPatch(added: seq<Container>, removed: seq<Name>, updated: seq<Container>)
  datatype QrPatch = QrPatch(changed: QrStates, removed: set<Name>)
  datatype Message =
    | Full(containers: seq<Container>, qr: QrStates)
    | Patch(list: Option<ListPatch>, qrPatch: Option<QrPatch>)

  // ---- dictionaries by name ----

  /** `{c["name"]: c for c in list}`: the last entry of a name wins. */
  function ByName(list: seq<Container>): map<Name, Container> {
    if list == [] then map[]
    else ByName(list[..|list| - 1])[list[|list| - 1].name := list[|list| - 1]]
  }

  /** The keys of that dictionary, in the order of their first occurrence. */
  function Names(list: seq<Container>): seq<Name> {
    if list == [] then []
    else
      var before, last := Names(list[..|list| - 1]), list[|list| - 1].name;
      if last in before then before else before + [last]
  }

  lemma {:induction false} NamesAreKeys(list: seq<Container>)
    ensures forall n :: n in Names(list) <==> n in ByName(list)
    ensures Distinct(Names(list))
    ensures forall n :: n in ByName(list) ==> ByName(list)[n].name == n
  {
    if list != [] {
      NamesAreKeys(list[..|list| - 1]);
    }
  }

  /** Entry `i` is the last one of its name. */
  ghost predicate LastOf(list: seq<Container>, n: Name, i: int) {
    0 <= i < |list| && list[i].name == n && forall k :: i < k < |list| ==> list[k].name != n
  }

  lemma {:induction false} ByNameExact(list: seq<Container>, n: Name)
    ensures n in ByName(list) <==> exists i :: LastOf(list, n, i)
    ensures forall i :: LastOf(list, n, i) ==> n in ByName(list) && ByName(list)[n] == list[i]
  {
    if list != [] {
      var init, last := list[..|list| - 1], |list| - 1;
      ByNameExact(init, n);
      if list[last].name == n {
        assert LastOf(list, n, last);
      } else {
        forall i ensures LastOf(list, n, i) <==> LastOf(init, n, i) {
          if LastOf(list, n, i) { assert forall k :: 0 <= k < last ==> init[k] == list[k]; }
        }
      }
    }
  }

  // ---- the diffs ----

  /** What a list diff must say; it is absent exactly when there is nothing to say. */
  ghost predicate IsListDiff(p: Option<ListPatch>, prev: map<Name, Container>, curr: map<Name, Container>) {
    match p
    case None => prev == curr
    case Some(patch) =>
      && patch != ListPatch([], [], [])
      && (forall n :: n in patch.removed <==> n in prev && n !in curr)
      && (forall c :: c in patch.added <==> c.name in curr && c == curr[c.name] && c.name !in prev)
      && (forall c :: c in patch.updated <==>
            c.name in curr && c == curr[c.name] && c.name in prev && c != prev[c.name])
      && Distinct(patch.added) && Distinct(patch.removed) && Distinct(patch.updated)
  }

  function DiffQr(prev: QrStates, curr: QrStates): Option<QrPatch> {
    var changed := map k | k in curr && (k !in prev || prev[k] != curr[k]) :: curr[k];
    var removed := set k | k in prev && k !in curr;
    if changed == map[] && removed == {} then None else Some(QrPatch(changed, removed))
  }

  ghost predicate Named(m: map<Name, Container>) { forall n :: n in m ==> m[n].name == n }

  /** A diff is None exactly when the two dictionaries are equal. */
  lemma DiffNoneExact(p: Option<ListPatch>, prev: map<Name, Container>, curr: map<Name, Container>,
                      q: QrStates, r: QrStates)
    requires Named(prev) && Named(curr) && IsListDiff(p, prev, curr)
    ensures p.None? <==> prev == curr
    ensures DiffQr(q, r).None? <==> q == r
  {
    if p.Some? {
      var patch := p.value;
      if patch.added != [] { assert patch.added[0] in patch.added; }
      if patch.removed != [] { assert patch.removed[0] in patch.removed; }
      if patch.updated != [] { assert patch.updated[0] in patch.updated; }
    }
    if DiffQr(q, r).None? {
      var changed := map k | k in r && (k !in q || q[k] != r[k]) :: r[k];
      var removed := set k | k in q && k !in r;
      forall k | k in r ensures k in q && q[k] == r[k] { assert k !in changed; }
      forall k | k in q ensures k in r { assert k !in removed; }
    }
  }

  // ---- the client ----

  function PutAll(m: map<Name, Container>, list: seq<Container>): map<Name, Container> {
    if list == [] then m else PutAll(m, list[..|list| - 1])[list[|list| - 1].name := list[|list| - 1]]
  }

  function ApplyList(m: map<Name, Container>, p: Option<ListPatch>): map<Name, Container> {
    match p
    case None => m
    case Some(patch) => PutAll(PutAll(m - (set n | n in patch.removed), patch.added), patch.updated)
  }

  function ApplyQr(m: QrStates, p: Option<QrPatch>): QrStates {
    match p
    case None => m
    case Some(patch) => (m + patch.changed) - patch.removed
  }

  ghost predicate Mentions(list: seq<Container>, n: Name) { exists c :: c in list && c.name == n }

  lemma {:induction false} PutAllMember(m: map<Name, Container>, list: seq<Container>, n: Name)
    ensures n in PutAll(m, list) <==> n in m || Mentions(list, n)
    ensures Mentions(list, n) ==> PutAll(m, list)[n] in list && PutAll(m, list)[n].name == n
    ensures !Mentions(list, n) && n in m ==> PutAll(m, list)[n] == m[n]
  {
    if list != [] {
      var init, last := list[..|list| - 1], list[|list| - 1];
      PutAllMember(m, init, n);
      assert list == init + [last];
      assert last in list && forall c :: c in list <==> c in init || c == last;
    }
  }

  /** Applying a diff to what it was computed from gives what it was computed to. */
  lemma ApplyListDiff(p: Option<ListPatch>, prev: map<Name, Container>, curr: map<Name, Container>)
    requires Named(prev) && Named(curr) && IsListDiff(p, prev, curr)
    ensures ApplyList(prev, p) == curr
  {
    if p.Some? {
      forall n
        ensures n in ApplyList(prev, p) <==> n in curr
        ensures n in curr ==> ApplyList(prev, p)[n] == curr[n]
      {
        ApplyAt(p.value, prev, curr, n);
      }
    }
  }

  lemma ApplyAt(patch: ListPatch, prev: map<Name, Container>, curr: map<Name, Container>, n: Name)
    requires Named(prev) && Named(curr) && IsListDiff(Some(patch), prev, curr)
    ensures var m := ApplyList(prev, Some(patch)); (n in m <==> n in curr) && (n in curr ==> m[n] == curr[n])
  {
    var kept := prev - (set k | k in patch.removed);
    PutAllMember(kept, patch.added, n);
    PutAllMember(PutAll(kept, patch.added), patch.updated, n);
    if n in curr {
      var c := curr[n];
      assert c.name == n;
      assert n !in prev ==> c in patch.added;
      assert n in prev && c != prev[n] ==> c in patch.updated;
    }
  }

  lemma ApplyQrDiff(prev: QrStates, curr: QrStates)
    ensures ApplyQr(prev, DiffQr(prev, curr)) == curr
  {
    if DiffQr(prev, curr).None? {
      DiffNoneExact(None, map[], map[], prev, curr);
    }
  }

  // ---- a session ----

  /** What one round of the push loop hands out; `prev` is what the round before pushed. */
  datatype Snapshot = Snapshot(containers: seq<Container>, qr: QrStates)

  ghost predicate Pushes(first: bool, prev: Snapshot, curr: Snapshot, m: Option<Message>) {
    if first then m == Some(Full(curr.containers, curr.qr))
    else match m
      case None => ByName(prev.containers) == ByName(curr.containers) && prev.qr == curr.qr
      case Some(Full(_, _)) => false
      case Some(Patch(list, qrPatch)) =>
        && IsListDiff(list, ByName(prev.containers), ByName(curr.containers))
        && qrPatch == DiffQr(prev.qr, curr.qr)
        && (list.Some? || qrPatch.Some?)
  }

  datatype Replica = Replica(containers: map<Name, Container>, qr: QrStates)

  function Receive(r: Replica, m: Option<Message>): Replica {
    match m
    case None => r
    case Some(Full(containers, qr)) => Replica(ByName(containers), qr)
    case Some(Patch(list, qrPatch)) => Replica(ApplyList(r.containers, list), ApplyQr(r.qr, qrPatch))
  }

  function ReplicaAfter(sent: seq<Option<Message>>): Replica {
    if sent == [] then Replica(map[], map[])
    else Receive(ReplicaAfter(sent[..|sent| - 1]), sent[|sent| - 1])
  }

  /** The snapshots are arbitrary: another page, another page size or a change of the instances. */
  ghost predicate IsSession(rounds: seq<Snapshot>, sent: seq<Option<Message>>) {
    && |rounds| == |sent|
    && forall i :: 0 <= i < |rounds| ==> RoundAt(rounds, sent, i)
  }

  ghost predicate RoundAt(rounds: seq<Snapshot>, sent: seq<Option<Message>>, i: int) {
    && 0 <= i < |rounds| == |sent|
    && Pushes(i == 0, if i == 0 then Snapshot([], map[]) else rounds[i - 1], rounds[i], sent[i])
  }

  /** After every round the client holds exactly what the server pushed last, and stayed silent only when
      there was nothing to tell. */
  lemma {:induction false} ReplicaExact(rounds: seq<Snapshot>, sent: seq<Option<Message>>, i: nat)
    requires IsSession(rounds, sent) && i < |rounds|
    ensures ReplicaAfter(sent[..i + 1]) == Replica(ByName(rounds[i].containers), rounds[i].qr)
    ensures i > 0 ==> (sent[i].None? <==>
              ByName(rounds[i].containers) == ByName(rounds[i - 1].containers) && rounds[i].qr == rounds[i - 1].qr)
  {
    assert RoundAt(rounds, sent, i);
    assert sent[..i + 1][..i] == sent[..i];
    if i > 0 {
      ReplicaExact(rounds, sent, i - 1);
      PatchRound(rounds[i - 1], rounds[i], sent[i]);
    }
  }

  lemma PatchRound(prev: Snapshot, curr: Snapshot, m: Option<Message>)
    requires Pushes(false, prev, curr, m)
    ensures Receive(Replica(ByName(prev.containers), prev.qr), m) == Replica(ByName(curr.containers), curr.qr)
    ensures m.None? <==> ByName(prev.containers) == ByName(curr.containers) && prev.qr == curr.qr
  {
    NamesAreKeys(prev.containers);
    NamesAreKeys(curr.containers);
    if m.Some? {
      ApplyListDiff(m.value.list, ByName(prev.containers), ByName(curr.containers));
      ApplyQrDiff(prev.qr, curr.qr);
      DiffNoneExact(m.value.list, ByName(prev.containers), ByName(curr.containers), prev.qr, curr.qr);
    }
  }

  class PublicChannel {
    var firstPush: bool
    var prev: Snapshot

    constructor ()
      ensures firstPush && prev == Snapshot([], map[])
    {
      firstPush, prev := true, Snapshot([], map[]);
    }

    /** The two passes over the current dictionary. */
    method CurrentSide(prevMap: map<Name, Container>, curr: seq<Container>)
      returns (added: seq<Container>, updated: seq<Container>)
      ensures var m := ByName(curr);
              && (forall c :: c in added <==> c.name in m && c == m[c.name] && c.name !in prevMap)
              && (forall c :: c in updated <==>
                    c.name in m && c == m[c.name] && c.name in prevMap && c != prevMap[c.name])
      ensures Distinct(added) && Distinct(updated)
    {
      var currMap, names := ByName(curr), Names(curr);
      NamesAreKeys(curr);
      added, updated := [], [];
      for i := 0 to |names|
        invariant forall c :: c in added <==> c.name in names[..i] && c == currMap[c.name] && c.name !in prevMap
        invariant forall c :: c in updated <==>
                    c.name in names[..i] && c == currMap[c.name] && c.name in prevMap && c != prevMap[c.name]
        invariant Distinct(added) && Distinct(updated)
      {
        var c := currMap[names[i]];
        assert names[..i + 1] == names[..i] + [names[i]];
        assert names[i] !in names[..i];
        if names[i] !in prevMap {
          DistinctConcat(added, [c]);
          added := added + [c];
        } else if c != prevMap[names[i]] {
          DistinctConcat(updated, [c]);
          updated := updated + [c];
        }
      }
      assert names[..|names|] == names;
    }

    method PreviousSide(prevList: seq<Container>, currMap: map<Name, Container>) returns (removed: seq<Name>)
      ensures forall n :: n in removed <==> n in ByName(prevList) && n !in currMap
      ensures Distinct(removed)
    {
      var names := Names(prevList);
      NamesAreKeys(prevList);
      removed := [];
      for i := 0 to |names|
        invariant forall n :: n in removed <==> n in names[..i] && n !in currMap
        invariant Distinct(removed)
      {
        assert names[..i + 1] == names[..i] + [names[i]];
        assert names[i] !in names[..i];
        if names[i] !in currMap {
          DistinctConcat(removed, [names[i]]);
          removed := removed + [names[i]];
        }
      }
      assert names[..|names|] == names;
    }

    method DiffContainers(prevList: seq<Container>, curr: seq<Container>) returns (patch: Option<ListPatch>)
      ensures IsListDiff(patch, ByName(prevList), ByName(curr))
    {
      var added, updated := CurrentSide(ByName(prevList), curr);
      var removed := PreviousSide(prevList, ByName(curr));
      if added == [] && removed == [] && updated == [] {
        patch := None;
        NamesAreKeys(curr);
        forall n | n in ByName(curr) ensures n in ByName(prevList) && ByName(curr)[n] == ByName(prevList)[n] {
          assert ByName(curr)[n] !in added && ByName(curr)[n] !in updated;
        }
        assert ByName(prevList) == ByName(curr);
      } else {
        patch := Some(ListPatch(added, removed, updated));
      }
    }

    /** One round of the push loop. */
    method Round(containers: seq<Container>, qr: QrStates) returns (m: Option<Message>)
      modifies this
      ensures Pushes(old(firstPush), old(prev), Snapshot(containers, qr), m)
      ensures !firstPush && prev == Snapshot(containers, qr)
    {
      if firstPush {
        m := Some(Full(containers, qr));
        firstPush := false;
      } else {
        var list := DiffContainers(prev.containers, containers);
        var qrPatch := DiffQr(prev.qr, qr);
        DiffNoneExact(None, map[], map[], prev.qr, qr);
        m := if list.Some? || qrPatch.Some? then Some(Patch(list, qrPatch)) else None;
      }
      prev := Snapshot(containers, qr);
    }
  }
}
