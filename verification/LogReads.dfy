/** Reading the operation log: the merge of table rows and buffered entries, when a flush can be seen in it, its
    pages, and the logger object with both sides. */
module LogReads {
  import opened Common
  import opened OperationLog

  // ---- reading ----

  /** An item as a caller of the read sees it. */
  type Item = map<string, Value>

  function Columns(e: Entry): Item {
    map["id" := Str(e.id), "type" := Str(e.kind), "level" := Str(e.level), "time" := Str(e.time),
        "timestamp" := Num(e.timestamp), "operator_name" := e.operatorName,
        "operator_uuid" := e.operatorUuid, "operator_ip" := e.operatorIp]
  }

  /** The payload is laid over the columns; a missing operator is filled from the operator's name. */
  function Flatten(e: Entry): Item {
    var flat := Columns(e) + e.payload;
    if "operator" in flat then flat else flat["operator" := flat["operator_name"]]
  }

  function Get(item: Item, key: string): Value { if key in item then item[key] else Null }

  function IdOf(item: Item): Value { Get(item, "id") }

  function StrOf(v: Value): string { match v case Str(t) => t case _ => "" }

  function TimestampOf(item: Item): int { match Get(item, "timestamp") case Num(n) => n case _ => 0 }

  predicate Dated(item: Item) { Get(item, "timestamp").Num? }

  /** Empty strings and absent bounds filter nothing; the operator filter is left out. */
  datatype Filters = Filters(kind: string, level: string, start: Option<int>, end: Option<int>)

  const ALL := Filters("", "", None, None)

  /** The public read drops negative bounds. */
  ghost predicate Normal(f: Filters) {
    && (f.start.Some? ==> f.start.value >= 0)
    && (f.end.Some? ==> f.end.value >= 0)
  }

  predicate Within(t: int, f: Filters) {
    && (f.start.Some? ==> t >= f.start.value)
    && (f.end.Some? ==> t <= f.end.value)
  }

  /** The WHERE clause of the query, on the columns. */
  predicate RowMatches(e: Entry, f: Filters) {
    && (f.kind != "" ==> e.kind == f.kind) && (f.level != "" ==> e.level == f.level) && Within(e.timestamp, f)
  }

  /** The filter on buffered items, on the flattened entry: type and level first, then the time. */
  predicate Asked(item: Item, f: Filters) {
    && (f.kind != "" ==> Get(item, "type") == Str(f.kind))
    && (f.level != "" ==> Get(item, "level") == Str(f.level))
  }

  predicate ItemMatches(item: Item, f: Filters) { Asked(item, f) && Within(TimestampOf(item), f) }

  /** Comparing a time stamp that is no number with a bound raises. */
  predicate FilterRaises(items: seq<Item>, f: Filters) {
    (f.start.Some? || f.end.Some?) && exists i :: 0 <= i < |items| && Asked(items[i], f) && !Dated(items[i])
  }

  /** `a >= b` on strings: by the first code point that differs. */
  predicate StringAtLeast(a: string, b: string) {
    if b == "" then true
    else if a == "" then false
    else if a[0] != b[0] then a[0] > b[0]
    else StringAtLeast(a[1..], b[1..])
  }

  function Rank(v: Value): nat { match v case Num(_) => 2 case Str(_) => 1 case _ => 0 }

  /** The order of the sort by time stamp: numbers by size, strings by code points. Values of different kinds are
      never compared, since that raises; their order here only completes the definition. */
  predicate NoOlder(a: Item, b: Item) {
    var s, t := Get(a, "timestamp"), Get(b, "timestamp");
    if Rank(s) != Rank(t) then Rank(s) > Rank(t)
    else match s
      case Num(n) => n >= t.n
      case Str(x) => StringAtLeast(x, t.s)
      case _ => true
  }

  /** A nested id cannot be hashed, and two time stamps can only be compared if both are numbers or both are
      strings. A nested id anywhere among the rows and the filtered items also stands in the merged list. */
  predicate MergeRaises(items: seq<Item>) {
    || (exists i :: 0 <= i < |items| && IdOf(items[i]).Nested?)
    || (|items| >= 2
        && (exists i :: 0 <= i < |items| && !Dated(items[i]))
        && (exists i :: 0 <= i < |items| && !Get(items[i], "timestamp").Str?))
  }

  lemma {:induction false} StringsTotal(a: string, b: string)
    ensures StringAtLeast(a, b) || StringAtLeast(b, a)
  {
    if a != "" && b != "" && a[0] == b[0] { StringsTotal(a[1..], b[1..]); }
  }

  lemma {:induction false} StringsTransitive(a: string, b: string, c: string)
    requires StringAtLeast(a, b) && StringAtLeast(b, c)
    ensures StringAtLeast(a, c)
  {
    if c != "" && a[0] == b[0] == c[0] { StringsTransitive(a[1..], b[1..], c[1..]); }
  }

  lemma NoOlderOrders()
    ensures Preorder(NoOlder)
  {
    forall x, y ensures NoOlder(x, y) || NoOlder(y, x) {
      var s, t := Get(x, "timestamp"), Get(y, "timestamp");
      if s.Str? && t.Str? { StringsTotal(s.s, t.s); }
    }
    forall x, y, z | NoOlder(x, y) && NoOlder(y, z) ensures NoOlder(x, z) {
      var s, t, u := Get(x, "timestamp"), Get(y, "timestamp"), Get(z, "timestamp");
      if s.Str? && t.Str? && u.Str? { StringsTransitive(s.s, t.s, u.s); }
    }
  }

  /** A list comprehension over entries. */
  function Each(flat: Entry -> Item, entries: seq<Entry>): (r: seq<Item>)
    ensures |r| == |entries| && forall i :: 0 <= i < |r| ==> r[i] == flat(entries[i])
  {
    seq(|entries|, i requires 0 <= i < |entries| => flat(entries[i]))
  }

  function FilterItems(items: seq<Item>, f: Filters): seq<Item> {
    if items == [] then []
    else FilterItems(items[..|items| - 1], f) + if ItemMatches(items[|items| - 1], f) then [items[|items| - 1]] else []
  }

  function Ids(items: seq<Item>): set<Value> { set i | 0 <= i < |items| :: IdOf(items[i]) }

  function NotIn(items: seq<Item>, ids: set<Value>): seq<Item> {
    if items == [] then []
    else
      NotIn(items[..|items| - 1], ids)
      + if IdOf(items[|items| - 1]) !in ids then [items[|items| - 1]] else []
  }

  /** Table rows first, then the buffered items whose id no row has. */
  function Merged(flat: Entry -> Item, rows: seq<Entry>, buffer: seq<Entry>, f: Filters): seq<Item> {
    Each(flat, rows) + NotIn(FilterItems(Each(flat, buffer), f), Ids(Each(flat, rows)))
  }

  /** The answer of a read, or None when it raises; what flattening does is a parameter here. */
  function Answer(flat: Entry -> Item, rows: seq<Entry>, buffer: seq<Entry>, f: Filters): Option<seq<Item>> {
    if FilterRaises(Each(flat, buffer), f) || MergeRaises(Merged(flat, rows, buffer, f)) then None
    else Some(Sort(NoOlder, Merged(flat, rows, buffer, f)))
  }

  function Combined(rows: seq<Entry>, buffer: seq<Entry>, f: Filters): Option<seq<Item>> {
    Answer(Flatten, rows, buffer, f)
  }

  /** What the database may answer to the query: the matching rows, newest first, ties in any order. */
  ghost predicate IsQuery(rows: seq<Entry>, table: seq<Entry>, f: Filters) {
    && DistinctIds(rows)
    && (forall e :: e in rows <==> e in table && RowMatches(e, f))
    && Descending(NoOlderRow, rows)
  }

  predicate NoOlderRow(a: Entry, b: Entry) { a.timestamp >= b.timestamp }

  lemma AnyQuery(table: seq<Entry>, f: Filters) returns (rows: seq<Entry>)
    requires DistinctIds(table)
    ensures IsQuery(rows, table, f)
  {
    var keep := (e: Entry) => RowMatches(e, f);
    var kept := Filter(keep, table);
    FilterExact(keep, table);
    assert Preorder(NoOlderRow);
    SortSorts(NoOlderRow, kept);
    SortPermutes(NoOlderRow, kept);
    rows := Sort(NoOlderRow, kept);
    assert Distinct(table) by { forall i, j | 0 <= i < j < |table| ensures table[i] != table[j] {} }
    PermutedDistinct(kept, rows);
    forall i, j | 0 <= i < j < |rows| ensures rows[i].id != rows[j].id {
      assert rows[i] in table && rows[j] in table && rows[i] != rows[j];
      if rows[i].id == rows[j].id { SameId(table, rows[i], rows[j]); }
    }
  }

  // ---- what a read shows ----

  function IdIn(flat: Entry -> Item, e: Entry): Value { IdOf(flat(e)) }

  /** The buffered entries a read adds to the rows, `ids` being the ids of those. */
  function Visible(flat: Entry -> Item, buffer: seq<Entry>, f: Filters, ids: set<Value>): seq<Entry> {
    if buffer == [] then []
    else
      var last := buffer[|buffer| - 1];
      Visible(flat, buffer[..|buffer| - 1], f, ids)
      + if ItemMatches(flat(last), f) && IdOf(flat(last)) !in ids then [last] else []
  }

  lemma EachSnoc(flat: Entry -> Item, a: seq<Entry>, e: Entry)
    ensures Each(flat, a + [e]) == Each(flat, a) + [flat(e)]
  {}

  lemma EachConcat(flat: Entry -> Item, a: seq<Entry>, b: seq<Entry>)
    ensures Each(flat, a + b) == Each(flat, a) + Each(flat, b)
  {}

  lemma {:induction false} NotInSnoc(items: seq<Item>, item: Item, ids: set<Value>)
    ensures NotIn(items + [item], ids) == NotIn(items, ids) + if IdOf(item) !in ids then [item] else []
  {
    assert (items + [item])[..|items|] == items;
  }

  lemma {:induction false} VisibleItems(flat: Entry -> Item, buffer: seq<Entry>, f: Filters, ids: set<Value>)
    ensures NotIn(FilterItems(Each(flat, buffer), f), ids) == Each(flat, Visible(flat, buffer, f, ids))
  {
    if buffer != [] {
      var init, last := buffer[..|buffer| - 1], buffer[|buffer| - 1];
      VisibleItems(flat, init, f, ids);
      assert Each(flat, buffer)[..|buffer| - 1] == Each(flat, init);
      var kept, seen := FilterItems(Each(flat, init), f), Visible(flat, init, f, ids);
      NotInSnoc(kept, flat(last), ids);
      assert kept + [] == kept && seen + [] == seen && Each(flat, seen) + [] == Each(flat, seen);
      EachSnoc(flat, Visible(flat, init, f, ids), last);
    }
  }

  lemma {:induction false} VisibleExact(flat: Entry -> Item, buffer: seq<Entry>, f: Filters, ids: set<Value>)
    ensures forall e :: e in Visible(flat, buffer, f, ids) <==>
              e in buffer && ItemMatches(flat(e), f) && IdOf(flat(e)) !in ids
    ensures DistinctIds(buffer) ==> DistinctIds(Visible(flat, buffer, f, ids))
  {
    if buffer != [] {
      var init, last := buffer[..|buffer| - 1], buffer[|buffer| - 1];
      assert buffer == init + [last];
      VisibleExact(flat, init, f, ids);
      if DistinctIds(buffer) { SnocDistinct(Visible(flat, init, f, ids), init, last); }
    }
  }

  lemma SnocDistinct(some: seq<Entry>, init: seq<Entry>, last: Entry)
    requires DistinctIds(init + [last]) && DistinctIds(some) && forall e :: e in some ==> e in init
    ensures DistinctIds(some + [last])
  {
    forall k | 0 <= k < |some| ensures some[k].id != last.id {
      assert some[k] in init;
      var l :| 0 <= l < |init| && init[l] == some[k];
      assert (init + [last])[l].id != (init + [last])[|init|].id;
    }
  }

  /** A read shows a row that matches, and a buffered entry whose flattened form matches unless a matching row
      has the flattened id. */
  ghost predicate Shows(flat: Entry -> Item, buffer: seq<Entry>, table: seq<Entry>, f: Filters, e: Entry) {
    || (e in table && RowMatches(e, f))
    || (e in buffer && ItemMatches(flat(e), f)
        && forall t :: t in table && RowMatches(t, f) ==> IdOf(flat(t)) != IdOf(flat(e)))
  }

  lemma MergedShows(flat: Entry -> Item, buffer: seq<Entry>, table: seq<Entry>, rows: seq<Entry>, f: Filters,
                    all: seq<Entry>)
    returns (shown: seq<Entry>)
    requires DistinctIds(all) && DistinctIds(buffer) && IsQuery(rows, table, f)
    requires forall e :: e in buffer || e in table ==> e in all
    ensures Distinct(shown) && forall e :: e in shown <==> Shows(flat, buffer, table, f, e)
    ensures Each(flat, rows) + NotIn(FilterItems(Each(flat, buffer), f), Ids(Each(flat, rows))) == Each(flat, shown)
  {
    var ids := Ids(Each(flat, rows));
    var extra := Visible(flat, buffer, f, ids);
    VisibleItems(flat, buffer, f, ids);
    VisibleExact(flat, buffer, f, ids);
    EachConcat(flat, rows, extra);
    shown := rows + extra;
    forall e | e in rows ensures IdOf(flat(e)) in ids {
      var i :| 0 <= i < |rows| && rows[i] == e;
      assert IdOf(Each(flat, rows)[i]) in ids;
    }
    DistinctIdsDistinct(rows);
    DistinctIdsDistinct(extra);
    DistinctConcat(rows, extra);
    forall e ensures e in shown <==> Shows(flat, buffer, table, f, e) {
      if e in buffer && IdOf(flat(e)) in ids {
        var i :| 0 <= i < |rows| && IdOf(Each(flat, rows)[i]) == IdOf(flat(e));
        assert rows[i] in rows && IdOf(flat(rows[i])) == IdOf(flat(e));
      }
    }
  }

  lemma DistinctIdsDistinct(s: seq<Entry>)
    requires DistinctIds(s)
    ensures Distinct(s)
  {
    forall i, j | 0 <= i < j < |s| ensures s[i] != s[j] { assert s[i].id != s[j].id; }
  }

  function Without(s: seq<Entry>, i: nat): (r: seq<Entry>)
    requires i < |s|
    ensures |r| == |s| - 1
  {
    s[..i] + s[i + 1..]
  }

  lemma EachWithout(flat: Entry -> Item, b: seq<Entry>, j: nat)
    requires j < |b|
    ensures multiset(Without(b, j)) == multiset(b) - multiset{b[j]}
    ensures multiset(Each(flat, b)) == multiset(Each(flat, Without(b, j))) + multiset{flat(b[j])}
  {
    var pre, post := b[..j], b[j + 1..];
    assert b == pre + [b[j]] + post;
    EachConcat(flat, pre, post);
    EachConcat(flat, pre + [b[j]], post);
    EachSnoc(flat, pre, b[j]);
  }

  lemma {:induction false} EachPermuted(flat: Entry -> Item, a: seq<Entry>, b: seq<Entry>)
    requires multiset(a) == multiset(b)
    ensures multiset(Each(flat, a)) == multiset(Each(flat, b))
    decreases |a|
  {
    if a == [] {
      assert |multiset(b)| == 0;
    } else {
      assert a[0] in multiset(b);
      var j :| 0 <= j < |b| && b[j] == a[0];
      EachWithout(flat, a, 0);
      EachWithout(flat, b, j);
      EachPermuted(flat, Without(a, 0), Without(b, j));
    }
  }

  /** What is shown decides the multiset of items. */
  lemma SameShown(flat: Entry -> Item, a: seq<Entry>, b: seq<Entry>)
    requires Distinct(a) && Distinct(b) && forall e :: e in a <==> e in b
    ensures multiset(Each(flat, a)) == multiset(Each(flat, b))
  {
    SameMembers(a, b);
    EachPermuted(flat, a, b);
  }

  lemma EachMembers(flat: Entry -> Item, shown: seq<Entry>, x: Item)
    ensures x in Each(flat, shown) <==> exists e :: e in shown && x == flat(e)
  {
    if e :| e in shown && x == flat(e) {
      var i :| 0 <= i < |shown| && shown[i] == e;
      assert Each(flat, shown)[i] == x;
    }
  }

  lemma RaisesAlike(a: seq<Item>, b: seq<Item>)
    requires multiset(a) == multiset(b)
    ensures MergeRaises(a) <==> MergeRaises(b)
  {
    if MergeRaises(a) { RaisesOver(a, b); }
    if MergeRaises(b) { RaisesOver(b, a); }
  }

  lemma RaisesOver(a: seq<Item>, b: seq<Item>)
    requires multiset(a) == multiset(b) && MergeRaises(a)
    ensures MergeRaises(b)
  {
    assert |a| == |multiset(a)| == |multiset(b)| == |b|;
    forall i | 0 <= i < |a| ensures exists j :: 0 <= j < |b| && b[j] == a[i] { assert a[i] in multiset(b); }
  }

  // ---- when a flush can be seen ----

  /** The payload leaves type, level and time stamp as they are. */
  predicate Keeps(flat: Entry -> Item, e: Entry) {
    var item := flat(e);
    && StrOf(Get(item, "type")) == e.kind && StrOf(Get(item, "level")) == e.level
    && Get(item, "timestamp") == Num(e.timestamp)
  }

  /** The filter that lets the fewest rows through of all those an item matches. */
  function Narrowest(item: Item): Filters {
    var t := TimestampOf(item);
    Filters(StrOf(Get(item, "type")), StrOf(Get(item, "level")),
            if t >= 0 then Some(t) else None, Some(if t >= 0 then t else 0))
  }

  /** Some row has the flattened id of `b` and matches whatever the flattened form of `b` matches. */
  ghost predicate Covered(flat: Entry -> Item, table: seq<Entry>, b: Entry) {
    Dated(flat(b)) && exists t :: t in table && IdIn(flat, t) == IdIn(flat, b) && RowMatches(t, Narrowest(flat(b)))
  }

  ghost predicate Alone(flat: Entry -> Item, s: State, b: Entry) {
    forall e :: e in Entries(s) && e != b ==> IdIn(flat, e) != IdIn(flat, b)
  }

  /** A buffered entry that is not in the table yet keeps its columns and shares its flattened id with nothing;
      one that a failed attempt has written already is covered by a row. */
  ghost predicate Harmless(flat: Entry -> Item, s: State, b: Entry) {
    if b in s.table then Covered(flat, s.table, b) else Keeps(flat, b) && Alone(flat, s, b)
  }

  ghost predicate Transparent(flat: Entry -> Item, s: State) {
    forall b :: b in s.buffer ==> Harmless(flat, s, b)
  }

  /** A read whose items are compared and hashed without raising, as far as the table goes. */
  ghost predicate Answerable(flat: Entry -> Item, s: State) {
    && (forall e :: e in Entries(s) ==> !IdIn(flat, e).Nested?)
    && (forall e :: e in s.table ==> Dated(flat(e)))
  }

  ghost predicate SameAnswer(a: Option<seq<Item>>, b: Option<seq<Item>>) {
    if a.Some? && b.Some? then multiset(a.value) == multiset(b.value) else a == b
  }

  /** A flush with these faults changes no answer to this filter. */
  ghost predicate Unseen(flat: Entry -> Item, s: State, first: Fault, second: Fault, f: Filters) {
    var s' := Flush(s, first, second);
    forall before, after :: IsQuery(before, s.table, f) && IsQuery(after, s'.table, f) ==>
      SameAnswer(Answer(flat, before, s.buffer, f), Answer(flat, after, s'.buffer, f))
  }

  ghost predicate ShownBy(flat: Entry -> Item, s: State, f: Filters, e: Entry) { Shows(flat, s.buffer, s.table, f, e) }

  lemma NarrowestIsLeast(item: Item, t: Entry, f: Filters)
    requires Dated(item) && Normal(f) && t.timestamp >= 0
    ensures Normal(Narrowest(item)) && ItemMatches(item, Narrowest(item))
    ensures ItemMatches(item, f) && RowMatches(t, Narrowest(item)) ==> RowMatches(t, f)
  {}

  lemma KeptMatches(flat: Entry -> Item, e: Entry, f: Filters)
    requires Keeps(flat, e)
    ensures ItemMatches(flat(e), f) <==> RowMatches(e, f)
  {}

  /** In a transparent state a read shows exactly the entries whose columns match. */
  lemma ShowsMatching(flat: Entry -> Item, s: State, f: Filters, e: Entry)
    requires Placed(s) && Transparent(flat, s) && Normal(f)
    ensures ShownBy(flat, s, f, e) <==> e in Entries(s) && RowMatches(e, f)
  {
    if e in s.buffer {
      assert e in s.log;
      if e in s.table {
        var t :| t in s.table && IdIn(flat, t) == IdIn(flat, e) && RowMatches(t, Narrowest(flat(e)));
        NarrowestIsLeast(flat(e), t, f);
      } else {
        KeptMatches(flat, e, f);
        forall t | t in s.table ensures IdIn(flat, t) != IdIn(flat, e) { assert t in Entries(s) && t != e; }
      }
    }
  }

  /** What every flush does to buffer and table. */
  lemma FlushMoves(s: State, first: Fault, second: Fault)
    requires Placed(s) && Counted(s)
    ensures var s' := Flush(s, first, second);
            && Placed(s') && Entries(s') == Entries(s) && (forall e :: e in s.table ==> e in s'.table)
            && (s'.buffer == s.buffer || s'.buffer == [])
            && (first.None? ==> s'.buffer == [])
  {
    FlushConserves(s, first, second);
    FlushPlaces(s, first, second);
    TableGrows(s, first, second);
    BufferAfter(s, first, second);
  }

  lemma BufferAfter(s: State, first: Fault, second: Fault)
    ensures var b := Flush(s, first, second).buffer; (b == s.buffer || b == []) && (first.None? ==> b == [])
  {}

  lemma TableGrows(s: State, first: Fault, second: Fault)
    requires Placed(s)
    ensures forall e :: e in s.table ==> e in Flush(s, first, second).table
  {
    forall e | e in s.table ensures e in Flush(s, first, second).table { WrittenExact(s, first, second, e); }
  }

  lemma TransparentStays(flat: Entry -> Item, s: State, first: Fault, second: Fault)
    requires Placed(s) && Counted(s) && Transparent(flat, s)
    ensures Transparent(flat, Flush(s, first, second))
  {
    var s' := Flush(s, first, second);
    FlushMoves(s, first, second);
    forall b | b in s'.buffer ensures Harmless(flat, s', b) {
      assert Harmless(flat, s, b);
      if b in s'.table && b !in s.table {
        NarrowestIsLeast(flat(b), b, ALL);
        KeptMatches(flat, b, Narrowest(flat(b)));
      }
    }
  }

  lemma LogDistinct(s: State)
    requires Placed(s)
    ensures DistinctIds(s.buffer) && forall e :: e in s.buffer || e in s.table ==> e in s.log
  {
    BufferDistinct(s);
  }

  lemma FilterSilent(flat: Entry -> Item, buffer: seq<Entry>, f: Filters)
    requires forall e :: e in buffer ==> Dated(flat(e))
    ensures !FilterRaises(Each(flat, buffer), f)
  {
    forall i | 0 <= i < |buffer| ensures Dated(Each(flat, buffer)[i]) { assert buffer[i] in buffer; }
  }

  /** The answer of a read is decided by what it shows, when no buffered entry is undated. */
  lemma AnswerOf(flat: Entry -> Item, s: State, rows: seq<Entry>, f: Filters) returns (shown: seq<Entry>)
    requires Placed(s) && IsQuery(rows, s.table, f)
    requires forall e :: e in s.buffer ==> Dated(flat(e))
    ensures Distinct(shown) && forall e :: e in shown <==> ShownBy(flat, s, f, e)
    ensures Answer(flat, rows, s.buffer, f)
            == if MergeRaises(Each(flat, shown)) then None else Some(Sort(NoOlder, Each(flat, shown)))
  {
    LogDistinct(s);
    FilterSilent(flat, s.buffer, f);
    shown := MergedShows(flat, s.buffer, s.table, rows, f, s.log);
  }

  lemma TransparentDated(flat: Entry -> Item, s: State)
    requires Transparent(flat, s)
    ensures forall e :: e in s.buffer ==> Dated(flat(e))
  {}

  /** Two transparent states with the same entries answer alike, up to the order of ties. */
  lemma SameRead(flat: Entry -> Item, s: State, t: State, rowsS: seq<Entry>, rowsT: seq<Entry>, f: Filters)
    requires Placed(s) && Placed(t) && Transparent(flat, s) && Transparent(flat, t)
    requires Entries(s) == Entries(t) && Normal(f)
    requires IsQuery(rowsS, s.table, f) && IsQuery(rowsT, t.table, f)
    ensures SameAnswer(Answer(flat, rowsS, s.buffer, f), Answer(flat, rowsT, t.buffer, f))
  {
    TransparentDated(flat, s);
    TransparentDated(flat, t);
    var a := AnswerOf(flat, s, rowsS, f);
    var b := AnswerOf(flat, t, rowsT, f);
    forall e ensures e in a <==> e in b {
      ShowsMatching(flat, s, f, e);
      ShowsMatching(flat, t, f, e);
    }
    SameShown(flat, a, b);
    RaisesAlike(Each(flat, a), Each(flat, b));
    SortPermutes(NoOlder, Each(flat, a));
    SortPermutes(NoOlder, Each(flat, b));
  }

  ghost predicate NoRepeats(items: seq<Item>) {
    forall i, j :: 0 <= i < j < |items| ==> IdOf(items[i]) != IdOf(items[j])
  }

  /** The time stamps of a list fall, or stay, from each item to every later one. */
  ghost predicate NewestFirst(items: seq<Item>) {
    forall k, l :: 0 <= k < l < |items| && Dated(items[k]) && Dated(items[l]) ==>
      TimestampOf(items[k]) >= TimestampOf(items[l])
  }

  lemma Falling(items: seq<Item>)
    requires Descending(NoOlder, items)
    ensures NewestFirst(items)
  {}

  /** `a` comes after `b` in a dictionary: it goes on where `b` ends, or has the larger code point where they part. */
  ghost predicate After(a: string, b: string, k: int) {
    && 0 <= k <= |a| && k <= |b| && a[..k] == b[..k]
    && (k == |b| || (k < |a| && a[k] > b[k]))
  }

  lemma CommonHead(a: string, b: string, k: int)
    requires After(a, b, k) && a != "" && b != ""
    ensures k > 0 ==> a[0] == b[0]
  {
    if k > 0 { assert a[..k][0] == b[..k][0]; }
  }

  lemma {:induction false} StringAtLeastExact(a: string, b: string)
    ensures StringAtLeast(a, b) <==> exists k :: After(a, b, k)
  {
    if b == "" {
      assert After(a, b, 0);
    } else if a == "" {
    } else if a[0] != b[0] {
      assert a[0] > b[0] ==> After(a, b, 0);
      forall k | After(a, b, k) ensures k == 0 { CommonHead(a, b, k); }
    } else {
      StringAtLeastExact(a[1..], b[1..]);
      if k :| After(a[1..], b[1..], k) {
        assert a[..k + 1] == [a[0]] + a[1..][..k] && b[..k + 1] == [b[0]] + b[1..][..k];
        assert After(a, b, k + 1);
      }
      if k :| After(a, b, k) {
        assert k > 0;
        assert a[1..][..k - 1] == a[..k][1..] && b[1..][..k - 1] == b[..k][1..];
        assert After(a[1..], b[1..], k - 1);
      }
    }
  }

  /** Whatever is stored, an answer is in order: its time stamps are all numbers and fall, or all strings and fall in
      dictionary order, or there is one item at most. */
  lemma AnswerOrdered(flat: Entry -> Item, rows: seq<Entry>, buffer: seq<Entry>, f: Filters, k: nat, l: nat)
    requires Answer(flat, rows, buffer, f).Some? && k < l < |Answer(flat, rows, buffer, f).value|
    ensures var r := Answer(flat, rows, buffer, f).value;
            || (Dated(r[k]) && Dated(r[l]) && TimestampOf(r[k]) >= TimestampOf(r[l]))
            || match (Get(r[k], "timestamp"), Get(r[l], "timestamp"))
               case (Str(a), Str(b)) => exists m :: After(a, b, m)
               case _ => false
  {
    var items := Merged(flat, rows, buffer, f);
    var r := Sort(NoOlder, items);
    NoOlderOrders();
    SortSorts(NoOlder, items);
    SortPermutes(NoOlder, items);
    assert |multiset(r)| == |multiset(items)|;
    assert r[k] in multiset(items) && r[l] in multiset(items);
    assert NoOlder(r[k], r[l]);
    match (Get(r[k], "timestamp"), Get(r[l], "timestamp"))
    case (Str(a), Str(b)) => StringAtLeastExact(a, b);
    case _ =>
  }

  /** Two time stamps that cannot be compared: they are not both numbers and not both strings. */
  ghost predicate Clash(items: seq<Item>, i: int, j: int) {
    && 0 <= i < j < |items|
    && !(Get(items[i], "timestamp").Num? && Get(items[j], "timestamp").Num?)
    && !(Get(items[i], "timestamp").Str? && Get(items[j], "timestamp").Str?)
  }

  /** A buffered entry of the asked type and level has no time to compare with a bound. */
  ghost predicate Undecidable(item: Item, f: Filters) {
    && (f.start.Some? || f.end.Some?) && !Get(item, "timestamp").Num?
    && (f.kind == "" || Get(item, "type") == Str(f.kind)) && (f.level == "" || Get(item, "level") == Str(f.level))
  }

  /** A read raises if and only if a time bound meets a buffered entry that cannot be compared with it, or the merged
      items have a nested id or two time stamps that cannot be compared. */
  lemma RaisesExact(flat: Entry -> Item, rows: seq<Entry>, buffer: seq<Entry>, f: Filters)
    ensures var items := Merged(flat, rows, buffer, f);
            Answer(flat, rows, buffer, f).None?
            <==> || (exists i :: 0 <= i < |buffer| && Undecidable(flat(buffer[i]), f))
                 || (exists i :: 0 <= i < |items| && IdOf(items[i]).Nested?)
                 || (exists i, j :: Clash(items, i, j))
  {
    var items := Merged(flat, rows, buffer, f);
    var all := Each(flat, buffer);
    if i :| 0 <= i < |all| && (f.start.Some? || f.end.Some?) && Asked(all[i], f) && !Dated(all[i]) {
      assert Undecidable(flat(buffer[i]), f);
    }
    if i :| 0 <= i < |buffer| && Undecidable(flat(buffer[i]), f) { assert Asked(all[i], f); }
    ClashExact(items);
  }

  lemma ClashExact(items: seq<Item>)
    ensures (exists i, j :: Clash(items, i, j))
            <==> && |items| >= 2
                 && (exists i :: 0 <= i < |items| && !Get(items[i], "timestamp").Num?)
                 && (exists i :: 0 <= i < |items| && !Get(items[i], "timestamp").Str?)
  {
    if |items| >= 2 {
      if i, j :| 0 <= i < |items| && 0 <= j < |items| && !Get(items[i], "timestamp").Num?
                 && !Get(items[j], "timestamp").Str? {
        var k := if i != j then j else if i == 0 then 1 else 0;
        assert i < k ==> Clash(items, i, k);
        assert k < i ==> Clash(items, k, i);
      }
    }
  }

  /** A read shows exactly the matching entries of buffer and table, newest first, and none twice where
      flattened ids differ; it answers unless a matching entry has a nested id or no numeric time stamp. */
  lemma ReadExact(flat: Entry -> Item, s: State, rows: seq<Entry>, f: Filters, x: Item)
    requires Placed(s) && Transparent(flat, s) && Normal(f) && IsQuery(rows, s.table, f)
    ensures var r := Answer(flat, rows, s.buffer, f);
            && (r.Some? ==> Descending(NoOlder, r.value) && NewestFirst(r.value))
            && (r.Some? ==> (x in r.value <==> exists e :: e in Entries(s) && RowMatches(e, f) && x == flat(e)))
            && (r.Some? && (forall e :: e in Entries(s) ==> Alone(flat, s, e)) ==> NoRepeats(r.value))
            && (r.None? ==> exists e :: e in Entries(s) && RowMatches(e, f)
                                        && (IdIn(flat, e).Nested? || !Dated(flat(e))))
  {
    TransparentDated(flat, s);
    var shown := AnswerOf(flat, s, rows, f);
    forall e ensures e in shown <==> e in Entries(s) && RowMatches(e, f) { ShowsMatching(flat, s, f, e); }
    var items := Each(flat, shown);
    NoOlderOrders();
    SortSorts(NoOlder, items);
    Falling(Sort(NoOlder, items));
    SortPermutes(NoOlder, items);
    EachMembers(flat, shown, x);
    assert x in items <==> x in multiset(items);
    if forall e :: e in Entries(s) ==> Alone(flat, s, e) {
      ApartSorted(flat, s, shown);
    }
    if MergeRaises(items) {
      var i :| 0 <= i < |items| && (IdOf(items[i]).Nested? || !Dated(items[i]));
      assert shown[i] in shown;
    }
  }

  lemma ApartSorted(flat: Entry -> Item, s: State, shown: seq<Entry>)
    requires Distinct(shown) && forall e :: e in shown ==> e in Entries(s) && Alone(flat, s, e)
    ensures NoRepeats(Sort(NoOlder, Each(flat, shown)))
  {
    var items := Each(flat, shown);
    var sorted := Sort(NoOlder, items);
    SortPermutes(NoOlder, items);
    forall i, j | 0 <= i < j < |items| ensures items[i] != items[j] {
      assert shown[i] in shown && shown[j] in shown && shown[i] != shown[j];
      assert IdIn(flat, shown[i]) != IdIn(flat, shown[j]);
    }
    PermutedDistinct(items, sorted);
    forall i, j | 0 <= i < j < |sorted| ensures IdOf(sorted[i]) != IdOf(sorted[j]) {
      assert sorted[i] in items && sorted[j] in items && sorted[i] != sorted[j];
      var k :| 0 <= k < |items| && items[k] == sorted[i];
      var l :| 0 <= l < |items| && items[l] == sorted[j];
      assert shown[k] in shown && shown[l] in shown && shown[k] != shown[l];
    }
  }

  /** In a transparent state no flush, whatever its faults, changes an answer. */
  lemma FlushUnseen(flat: Entry -> Item, s: State, first: Fault, second: Fault, f: Filters)
    requires Placed(s) && Counted(s) && Transparent(flat, s) && Normal(f)
    ensures Unseen(flat, s, first, second, f)
  {
    var s' := Flush(s, first, second);
    FlushMoves(s, first, second);
    TransparentStays(flat, s, first, second);
    forall before, after | IsQuery(before, s.table, f) && IsQuery(after, s'.table, f)
      ensures SameAnswer(Answer(flat, before, s.buffer, f), Answer(flat, after, s'.buffer, f))
    {
      SameRead(flat, s, s', before, after, f);
    }
  }

  // ---- the converse: in any other state some flush is seen ----

  function Latest(entries: seq<Entry>): int {
    if entries == [] then 0
    else
      var m, t := Latest(entries[1..]), entries[0].timestamp;
      if t > m then t else m
  }

  lemma {:induction false} LatestBounds(entries: seq<Entry>)
    ensures Latest(entries) >= 0 && forall e :: e in entries ==> e.timestamp <= Latest(entries)
  {
    if entries != [] {
      LatestBounds(entries[1..]);
      forall e | e in entries ensures e.timestamp <= Latest(entries) {
        if e != entries[0] { assert e in entries[1..]; }
      }
    }
  }

  /** A time bound that no row reaches still raises on an undated item, while that is in the buffer. */
  lemma UndatedSeen(flat: Entry -> Item, s: State, b: Entry) returns (f: Filters)
    requires Placed(s) && Counted(s) && b in s.buffer && !Dated(flat(b))
    ensures Normal(f) && !Unseen(flat, s, None, None, f)
  {
    f := Filters("", "", Some(Latest(s.log) + 1), None);
    var s' := Flush(s, None, None);
    FlushMoves(s, None, None);
    LatestBounds(s.log);
    var before := AnyQuery(s.table, f);
    var after := AnyQuery(s'.table, f);
    forall e | e in s'.table ensures !RowMatches(e, f) { assert e in s'.log && e in s.log; }
    EmptyOrHas(after);
    assert FilterRaises(Each(flat, s.buffer), f) by {
      var i :| 0 <= i < |s.buffer| && s.buffer[i] == b;
      assert Each(flat, s.buffer)[i] == flat(b);
    }
    NothingAnswers(flat, f);
    assert Answer(flat, before, s.buffer, f).None?;
  }

  lemma EmptyOrHas(rows: seq<Entry>)
    ensures rows == [] || exists e :: e in rows
  {
    if rows != [] { assert rows[0] in rows; }
  }

  lemma NothingAnswers(flat: Entry -> Item, f: Filters)
    ensures Answer(flat, [], [], f).Some?
  {
    assert Each(flat, []) == [];
  }

  /** Nothing in buffer and table raises. */
  ghost predicate Safe(flat: Entry -> Item, s: State) {
    forall e :: e in Entries(s) ==> !IdIn(flat, e).Nested? && Dated(flat(e))
  }

  lemma SafeAnswer(flat: Entry -> Item, s: State, rows: seq<Entry>, f: Filters) returns (shown: seq<Entry>)
    requires Placed(s) && Safe(flat, s) && IsQuery(rows, s.table, f)
    ensures Distinct(shown) && forall e :: e in shown <==> ShownBy(flat, s, f, e)
    ensures var r := Answer(flat, rows, s.buffer, f); r.Some? && multiset(r.value) == multiset(Each(flat, shown))
  {
    assert forall e :: e in s.buffer ==> e in Entries(s);
    shown := AnswerOf(flat, s, rows, f);
    var items := Each(flat, shown);
    forall i | 0 <= i < |items| ensures !IdOf(items[i]).Nested? && Dated(items[i]) {
      assert shown[i] in shown && shown[i] in Entries(s);
    }
    SortPermutes(NoOlder, items);
  }

  /** Showing one entry more changes the number of items. */
  lemma MoreShown(flat: Entry -> Item, p: State, q: State, f: Filters, rowsP: seq<Entry>, rowsQ: seq<Entry>, b: Entry)
    requires Placed(p) && Safe(flat, p) && IsQuery(rowsP, p.table, f)
    requires Placed(q) && Safe(flat, q) && IsQuery(rowsQ, q.table, f)
    requires forall e :: ShownBy(flat, p, f, e) ==> ShownBy(flat, q, f, e)
    requires ShownBy(flat, q, f, b) && !ShownBy(flat, p, f, b)
    ensures !SameAnswer(Answer(flat, rowsP, p.buffer, f), Answer(flat, rowsQ, q.buffer, f))
  {
    var a := SafeAnswer(flat, p, rowsP, f);
    var c := SafeAnswer(flat, q, rowsQ, f);
    assert |a + [b]| <= |c| by {
      DistinctConcat(a, [b]);
      FitsInto(a + [b], c);
    }
    assert |Each(flat, a)| < |Each(flat, c)|;
    assert |multiset(Each(flat, a))| < |multiset(Each(flat, c))|;
  }

  lemma FitsInto(a: seq<Entry>, c: seq<Entry>)
    requires Distinct(a) && forall e :: e in a ==> e in c
    ensures |a| <= |c|
  {
    forall e ensures multiset(a)[e] <= multiset(c)[e] {
      DistinctCounts(a, e);
      if e in a { assert e in multiset(c); }
    }
    assert multiset(c) == multiset(a) + (multiset(c) - multiset(a));
  }

  /** An item that only one of the two reads shows. */
  lemma ItemDiffers(flat: Entry -> Item, p: State, q: State, f: Filters, rowsP: seq<Entry>, rowsQ: seq<Entry>, x: Item)
    requires Placed(p) && Safe(flat, p) && IsQuery(rowsP, p.table, f)
    requires Placed(q) && Safe(flat, q) && IsQuery(rowsQ, q.table, f)
    requires (exists e :: ShownBy(flat, p, f, e) && x == flat(e))
             <==> !exists e :: ShownBy(flat, q, f, e) && x == flat(e)
    ensures !SameAnswer(Answer(flat, rowsP, p.buffer, f), Answer(flat, rowsQ, q.buffer, f))
  {
    var a := SafeAnswer(flat, p, rowsP, f);
    var c := SafeAnswer(flat, q, rowsQ, f);
    EachMembers(flat, a, x);
    EachMembers(flat, c, x);
    assert x in Each(flat, a) <==> x in multiset(Each(flat, a));
    assert x in Each(flat, c) <==> x in multiset(Each(flat, c));
  }

  /** The flattened id of a buffered entry that is still to be written stands in the table. */
  predicate Hidden(flat: Entry -> Item, s: State, b: Entry, t: Entry) {
    b in s.buffer && b !in s.table && t in s.table && IdIn(flat, t) == IdIn(flat, b)
  }

  /** Two buffered entries that are still to be written have the same flattened id. */
  predicate Split(flat: Entry -> Item, s: State, i: nat, j: nat) {
    && i < j < |s.buffer| && s.buffer[i] !in s.table && s.buffer[j] !in s.table
    && IdIn(flat, s.buffer[i]) == IdIn(flat, s.buffer[j])
  }

  /** A flattened id that stands in the table hides a buffered entry; once written, both show. */
  lemma HiddenSeen(flat: Entry -> Item, s: State, b: Entry, t: Entry)
    requires Placed(s) && Counted(s) && Safe(flat, s)
    requires Hidden(flat, s, b, t)
    ensures !Unseen(flat, s, None, None, ALL)
  {
    var s' := Flush(s, None, None);
    FlushMoves(s, None, None);
    var before := AnyQuery(s.table, ALL);
    var after := AnyQuery(s'.table, ALL);
    forall e | ShownBy(flat, s, ALL, e) ensures ShownBy(flat, s', ALL, e) {
      assert e in Entries(s) && e in Entries(s');
    }
    assert b in Entries(s) && b in Entries(s') && RowMatches(t, ALL);
    MoreShown(flat, s, s', ALL, before, after, b);
  }

  lemma SplitWrites(s: State, i: nat, j: nat)
    requires Placed(s) && Counted(s) && i < j < |s.buffer| && s.buffer[j] !in s.table
    ensures var s' := Flush(s, Some(i + 1), Some(i + 1)); s.buffer[i] in s'.table && s.buffer[j] !in s'.table
  {
    var b := s.buffer[j];
    BufferDistinct(s);
    WrittenExact(s, Some(i + 1), Some(i + 1), b);
    WrittenExact(s, Some(i + 1), Some(i + 1), s.buffer[i]);
    assert Reaches(s.buffer, s.buffer[i], Some(i + 1));
    forall p | 0 <= p < |s.buffer| && s.buffer[p] == b ensures p == j { assert s.buffer[p].id == s.buffer[j].id; }
  }

  /** A flush that shows less than before is seen. */
  lemma LessSeen(flat: Entry -> Item, s: State, first: Fault, second: Fault, b: Entry)
    requires Placed(s) && Safe(flat, s) && Placed(Flush(s, first, second)) && Safe(flat, Flush(s, first, second))
    requires forall e :: ShownBy(flat, Flush(s, first, second), ALL, e) ==> ShownBy(flat, s, ALL, e)
    requires ShownBy(flat, s, ALL, b) && !ShownBy(flat, Flush(s, first, second), ALL, b)
    ensures !Unseen(flat, s, first, second, ALL)
  {
    var s' := Flush(s, first, second);
    var before := AnyQuery(s.table, ALL);
    var after := AnyQuery(s'.table, ALL);
    MoreShown(flat, s', s, ALL, after, before, b);
    SameAnswerTurns(Answer(flat, after, s'.buffer, ALL), Answer(flat, before, s.buffer, ALL));
  }

  /** A flush that writes only the first of two entries with the same flattened id hides the second. */
  lemma SplitSeen(flat: Entry -> Item, s: State, i: nat, j: nat)
    requires Placed(s) && Counted(s) && Safe(flat, s)
    requires Split(flat, s, i, j) && forall e, t :: !Hidden(flat, s, e, t)
    ensures !Unseen(flat, s, Some(i + 1), Some(i + 1), ALL)
  {
    var k: Fault := Some(i + 1);
    var a, b := s.buffer[i], s.buffer[j];
    FlushMoves(s, k, k);
    SplitWrites(s, i, j);
    SplitShows(flat, s, Flush(s, k, k), a, b);
    LessSeen(flat, s, k, k, b);
  }

  lemma SplitShows(flat: Entry -> Item, s: State, s': State, a: Entry, b: Entry)
    requires (forall e, t :: !Hidden(flat, s, e, t)) && Entries(s') == Entries(s)
    requires b in s.buffer && a in s'.table && b !in s'.table && IdIn(flat, a) == IdIn(flat, b)
    ensures forall e :: ShownBy(flat, s', ALL, e) ==> ShownBy(flat, s, ALL, e)
    ensures ShownBy(flat, s, ALL, b) && !ShownBy(flat, s', ALL, b)
  {
    forall e | ShownBy(flat, s', ALL, e) ensures ShownBy(flat, s, ALL, e) {
      assert e in Entries(s');
      AllShown(flat, s, e);
    }
    NotShown(flat, s', a, b);
    AllShown(flat, s, b);
  }

  lemma AllShown(flat: Entry -> Item, s: State, e: Entry)
    requires e in Entries(s) && forall t :: !Hidden(flat, s, e, t)
    ensures ShownBy(flat, s, ALL, e)
  {
    if e !in s.table {
      forall t | t in s.table ensures IdIn(flat, t) != IdIn(flat, e) { assert !Hidden(flat, s, e, t); }
    }
  }

  lemma NotShown(flat: Entry -> Item, s: State, t: Entry, b: Entry)
    requires t in s.table && b !in s.table && IdIn(flat, t) == IdIn(flat, b)
    ensures !ShownBy(flat, s, ALL, b)
  {
    assert RowMatches(t, ALL);
  }

  lemma SameAnswerTurns(a: Option<seq<Item>>, b: Option<seq<Item>>)
    ensures SameAnswer(a, b) <==> SameAnswer(b, a)
  {}

  /** A filter that tells the columns of an entry from its flattened form. */
  function Telling(flat: Entry -> Item, e: Entry): Filters {
    var item := flat(e);
    var kind, level, t := StrOf(Get(item, "type")), StrOf(Get(item, "level")), TimestampOf(item);
    if kind != e.kind then Filters(if e.kind != "" then e.kind else kind, "", None, None)
    else if level != e.level then Filters("", if e.level != "" then e.level else level, None, None)
    else Filters("", "", Some(if t > e.timestamp then t else e.timestamp), None)
  }

  lemma TellingTells(flat: Entry -> Item, e: Entry)
    requires e.timestamp >= 0 && Dated(flat(e)) && !Keeps(flat, e)
    ensures Normal(Telling(flat, e)) && (ItemMatches(flat(e), Telling(flat, e)) <==> !RowMatches(e, Telling(flat, e)))
  {}

  /** An overridden column shows or hides the entry by its payload before and by its row after the flush. */
  lemma OverrideSeen(flat: Entry -> Item, s: State, b: Entry)
    requires Placed(s) && Counted(s) && Safe(flat, s)
    requires b in s.buffer && b !in s.table && !Keeps(flat, b) && Alone(flat, s, b)
    ensures Normal(Telling(flat, b)) && !Unseen(flat, s, None, None, Telling(flat, b))
  {
    var s', f, x := Flush(s, None, None), Telling(flat, b), flat(b);
    FlushMoves(s, None, None);
    assert b in s.log && b in Entries(s);
    TellingTells(flat, b);
    var before := AnyQuery(s.table, f);
    var after := AnyQuery(s'.table, f);
    assert b in s'.table by { assert b in Entries(s'); }
    ShownAlone(flat, s, f, b);
    ShownAlone(flat, s', f, b);
    ItemDiffers(flat, s, s', f, before, after, x);
  }

  lemma ShownAlone(flat: Entry -> Item, s: State, f: Filters, b: Entry)
    requires b in Entries(s) && Alone(flat, s, b) && (b in s.table ==> s.buffer == [])
    ensures (exists e :: ShownBy(flat, s, f, e) && flat(b) == flat(e))
            <==> if b in s.table then RowMatches(b, f) else ItemMatches(flat(b), f)
  {
    forall e | ShownBy(flat, s, f, e) && flat(e) == flat(b) ensures e == b {
      assert e in Entries(s) && IdIn(flat, e) == IdIn(flat, b);
    }
    forall t | t in s.table && t != b ensures IdIn(flat, t) != IdIn(flat, b) { assert t in Entries(s); }
    assert ShownBy(flat, s, f, b) <==> if b in s.table then RowMatches(b, f) else ItemMatches(flat(b), f);
  }

  /** An entry that a failed attempt has written shows twice where its flattened form matches and no row of its
      flattened id does; after the flush only the row is left. */
  lemma UncoveredSeen(flat: Entry -> Item, s: State, b: Entry)
    requires Placed(s) && Counted(s) && Safe(flat, s)
    requires b in s.buffer && b in s.table && !Covered(flat, s.table, b)
    requires forall e :: e in s.buffer && e !in s.table ==> Alone(flat, s, e)
    ensures Normal(Narrowest(flat(b))) && !Unseen(flat, s, None, None, Narrowest(flat(b)))
  {
    var s', x := Flush(s, None, None), flat(b);
    var f := Narrowest(x);
    FlushMoves(s, None, None);
    assert b in s.log && b in Entries(s);
    NarrowestIsLeast(x, b, ALL);
    var before := AnyQuery(s.table, f);
    var after := AnyQuery(s'.table, f);
    assert ShownBy(flat, s, f, b);
    forall e | ShownBy(flat, s', f, e) ensures flat(e) != x {
      assert e in Entries(s') && e in Entries(s);
      if e !in s.table { assert e in s.buffer && Alone(flat, s, e) && IdIn(flat, e) != IdIn(flat, b); }
    }
    ItemDiffers(flat, s, s', f, before, after, x);
  }

  /** Wherever a state is not transparent, some flush changes the answer to some filter. */
  lemma OtherwiseSeen(flat: Entry -> Item, s: State) returns (first: Fault, second: Fault, f: Filters)
    requires Placed(s) && Counted(s) && Answerable(flat, s) && !Transparent(flat, s)
    ensures Normal(f) && !Unseen(flat, s, first, second, f)
  {
    first, second, f := None, None, ALL;
    if b :| b in s.buffer && !Dated(flat(b)) {
      f := UndatedSeen(flat, s, b);
    } else if b, t :| Hidden(flat, s, b, t) {
      HiddenSeen(flat, s, b, t);
    } else if i: nat, j: nat :| Split(flat, s, i, j) {
      first, second := Some(i + 1), Some(i + 1);
      SplitSeen(flat, s, i, j);
    } else {
      forall b | b in s.buffer && b !in s.table ensures Alone(flat, s, b) { AloneOtherwise(flat, s, b); }
      f := ApartSeen(flat, s);
    }
  }

  /** The remaining case: ids are apart, so some buffered entry overrides a column. */
  lemma ApartSeen(flat: Entry -> Item, s: State) returns (f: Filters)
    requires Placed(s) && Counted(s) && Safe(flat, s) && !Transparent(flat, s)
    requires forall e :: e in s.buffer && e !in s.table ==> Alone(flat, s, e)
    ensures Normal(f) && !Unseen(flat, s, None, None, f)
  {
    var b :| b in s.buffer && !Harmless(flat, s, b);
    if b in s.table {
      f := Narrowest(flat(b));
      UncoveredSeen(flat, s, b);
    } else {
      f := Telling(flat, b);
      OverrideSeen(flat, s, b);
    }
  }

  lemma AloneOtherwise(flat: Entry -> Item, s: State, b: Entry)
    requires b in s.buffer && b !in s.table
    requires (forall e, t :: !Hidden(flat, s, e, t)) && forall i: nat, j: nat :: !Split(flat, s, i, j)
    ensures Alone(flat, s, b)
  {
    forall e | e in Entries(s) && e != b ensures IdIn(flat, e) != IdIn(flat, b) {
      if e in s.table {
        assert !Hidden(flat, s, b, e);
      } else {
        var i :| 0 <= i < |s.buffer| && s.buffer[i] == e;
        var j :| 0 <= j < |s.buffer| && s.buffer[j] == b;
        assert !Split(flat, s, i, j) && !Split(flat, s, j, i);
      }
    }
  }

  /** At every moment of every run: no flush with any faults changes the answer to any type, level and time
      filter, if and only if every buffered entry not yet written keeps type, level and time stamp and has a
      flattened id of its own, and every buffered entry already written is covered by a row. */
  lemma FlushInvisibleExact(flat: Entry -> Item, trace: seq<State>, events: seq<Event>, i: nat)
    requires IsRun(trace, events) && i < |trace| && Answerable(flat, trace[i])
    ensures Transparent(flat, trace[i]) <==>
              forall first, second, f :: Normal(f) ==> Unseen(flat, trace[i], first, second, f)
  {
    Conserved(trace, events, i);
    if Transparent(flat, trace[i]) {
      forall first, second, f | Normal(f) ensures Unseen(flat, trace[i], first, second, f) {
        FlushUnseen(flat, trace[i], first, second, f);
      }
    } else {
      var first, second, f := OtherwiseSeen(flat, trace[i]);
    }
  }

  /** Without asking whether reads can raise, transparency is enough. */
  lemma FlushInvisible(flat: Entry -> Item, trace: seq<State>, events: seq<Event>, i: nat,
                       first: Fault, second: Fault, f: Filters)
    requires IsRun(trace, events) && i < |trace| && Transparent(flat, trace[i]) && Normal(f)
    ensures Unseen(flat, trace[i], first, second, f)
  {
    Conserved(trace, events, i);
    FlushUnseen(flat, trace[i], first, second, f);
  }

  // ---- payloads that override nothing ----

  /** The payload has no key of a column that identifies, classifies or dates the entry. */
  predicate Plain(e: Entry) { forall k :: k in ["id", "type", "level", "timestamp"] ==> k !in e.payload }

  lemma PlainItem(e: Entry)
    requires Plain(e)
    ensures IdIn(Flatten, e) == Str(e.id) && Keeps(Flatten, e) && Dated(Flatten(e))
  {
    assert "id" !in e.payload && "type" !in e.payload && "level" !in e.payload && "timestamp" !in e.payload by {
      assert forall k :: k in ["id", "type", "level", "timestamp"] ==> k !in e.payload;
    }
  }

  /** As long as no logged payload has such a key, every state of a run is transparent, its reads answer, and
      flattened ids are apart. */
  lemma PlainTransparent(trace: seq<State>, events: seq<Event>, i: nat)
    requires IsRun(trace, events) && i < |trace| && forall e :: e in trace[i].log ==> Plain(e)
    ensures Transparent(Flatten, trace[i]) && Answerable(Flatten, trace[i]) && Safe(Flatten, trace[i])
    ensures forall e :: e in Entries(trace[i]) ==> Alone(Flatten, trace[i], e)
  {
    var s := trace[i];
    Conserved(trace, events, i);
    LogDistinct(s);
    forall e | e in Entries(s)
      ensures e in s.log && IdIn(Flatten, e) == Str(e.id) && Keeps(Flatten, e) && Dated(Flatten(e))
    {
      assert e in s.log;
      PlainItem(e);
    }
    PlainHarmless(Flatten, s);
  }

  lemma PlainHarmless(flat: Entry -> Item, s: State)
    requires Placed(s)
    requires forall e :: e in Entries(s) ==> IdIn(flat, e) == Str(e.id) && Keeps(flat, e) && Dated(flat(e))
    ensures Transparent(flat, s) && forall e :: e in Entries(s) ==> Alone(flat, s, e)
  {
    LogDistinct(s);
    forall a, b | a in Entries(s) && b in Entries(s) && a != b ensures IdIn(flat, a) != IdIn(flat, b) {
      if a.id == b.id { SameId(s.log, a, b); }
    }
    forall b | b in s.buffer ensures Harmless(flat, s, b) {
      assert b in Entries(s);
      NarrowestIsLeast(flat(b), b, ALL);
      KeptMatches(flat, b, Narrowest(flat(b)));
    }
  }

  /** What the four filters of a read ask of an entry; both time bounds are inclusive. */
  predicate Wanted(e: Entry, f: Filters) {
    && f.kind in ["", e.kind] && f.level in ["", e.level]
    && (f.start.None? || f.start.value <= e.timestamp) && (f.end.None? || e.timestamp <= f.end.value)
  }

  lemma WantedExact(f: Filters)
    ensures forall e :: RowMatches(e, f) <==> Wanted(e, f)
  {}

  /** What a caller sees of an entry: the payload where it has the key, else the column, and as the operator of an
      entry without one its name. */
  lemma FlattenExact(e: Entry, k: string)
    ensures var item := Flatten(e);
            && (k in e.payload ==> k in item && item[k] == e.payload[k])
            && (k !in e.payload ==>
                  match k
                  case "id" => Get(item, k) == Str(e.id)
                  case "type" => Get(item, k) == Str(e.kind)
                  case "level" => Get(item, k) == Str(e.level)
                  case "time" => Get(item, k) == Str(e.time)
                  case "timestamp" => Get(item, k) == Num(e.timestamp)
                  case "operator" => k in item && item[k] == item["operator_name"]
                  case "operator_name" => k in item && item[k] == e.operatorName
                  case "operator_uuid" => k in item && item[k] == e.operatorUuid
                  case "operator_ip" => k in item && item[k] == e.operatorIp
                  case _ => k !in item)
  {}

  /** The operator of a logged entry is the payload's, and what the payload leaves out reads as nothing, save that the
      operator defaults to its name. */
  lemma OperatorShown(id: string, kind: string, level: string, time: string, now: int, payload: Payload)
    ensures var item := Flatten(MakeEntry(id, kind, level, time, now, payload));
            forall k :: k in ["operator_name", "operator_uuid", "operator_ip", "operator"] ==>
              k in item && item[k] == if k in payload then payload[k]
                                      else if k == "operator" && "operator_name" in payload
                                      then payload["operator_name"] else Null
  {
    var e := MakeEntry(id, kind, level, time, now, payload);
    FlattenExact(e, "operator_name");
    FlattenExact(e, "operator_uuid");
    FlattenExact(e, "operator_ip");
    FlattenExact(e, "operator");
  }

  /** In such a run no flush at any moment changes any answer, and every read answers: with exactly the matching
      entries of buffer and table, none twice, newest first. */
  lemma PlainReads(trace: seq<State>, events: seq<Event>, i: nat, first: Fault, second: Fault, rows: seq<Entry>,
                   f: Filters, x: Item)
    requires IsRun(trace, events) && i < |trace| && forall e :: e in trace[i].log ==> Plain(e)
    requires Normal(f) && IsQuery(rows, trace[i].table, f)
    ensures Unseen(Flatten, trace[i], first, second, f)
    ensures var s, r := trace[i], Combined(rows, trace[i].buffer, f);
            && r.Some? && NoRepeats(r.value)
            && (forall k, l :: 0 <= k < l < |r.value| ==> TimestampOf(r.value[k]) >= TimestampOf(r.value[l]))
            && (x in r.value <==> exists e :: e in Entries(s) && Wanted(e, f) && x == Flatten(e))
  {
    PlainTransparent(trace, events, i);
    FlushInvisible(Flatten, trace, events, i, first, second, f);
    Conserved(trace, events, i);
    ReadExact(Flatten, trace[i], rows, f, x);
    WantedExact(f);
    PlainDated(trace[i], rows, f);
  }

  lemma PlainDated(s: State, rows: seq<Entry>, f: Filters)
    requires forall e :: e in Entries(s) ==> Dated(Flatten(e))
    requires Placed(s) && Transparent(Flatten, s) && Normal(f) && IsQuery(rows, s.table, f)
    ensures var r := Combined(rows, s.buffer, f); r.Some? ==> forall x :: x in r.value ==> Dated(x)
  {
    var r := Combined(rows, s.buffer, f);
    if r.Some? {
      forall x | x in r.value ensures Dated(x) { ReadExact(Flatten, s, rows, f, x); }
    }
  }

  // ---- what raising hides ----

  function Tagged(id: string, kind: string, payload: Payload): Entry { MakeEntry(id, kind, "info", "", 0, payload) }

  /** Two stored rows with nested ids and a buffered entry whose payload turns its type from the one's into the
      other's: every read that could tell the difference raises, before any flush and after. */
  function Raising(): State {
    var one, other := Tagged("1", "A", map["id" := Nested("{}")]), Tagged("2", "B", map["id" := Nested("{}")]);
    var b := Tagged("3", "A", map["type" := Str("B")]);
    State([one, other, b], [b], [one, other], [], 0)
  }

  lemma NestedRaises(flat: Entry -> Item, rows: seq<Entry>, buffer: seq<Entry>, f: Filters, e: Entry)
    requires e in rows && IdIn(flat, e).Nested?
    ensures Answer(flat, rows, buffer, f).None?
  {
    var i :| 0 <= i < |rows| && rows[i] == e;
    assert Merged(flat, rows, buffer, f)[i] == flat(e);
  }

  lemma NoneAnswers(flat: Entry -> Item, buffer: seq<Entry>, f: Filters)
    requires forall e :: e in buffer ==> Dated(flat(e)) && !ItemMatches(flat(e), f)
    ensures Answer(flat, [], buffer, f) == Some([])
  {
    FilterSilent(flat, buffer, f);
    VisibleItems(flat, buffer, f, {});
    VisibleExact(flat, buffer, f, {});
    EmptyOrHas(Visible(flat, buffer, f, {}));
    assert Each(flat, []) == [] && Ids([]) == {};
  }

  lemma RaisingItems()
    ensures var s := Raising();
            var one, other, b := s.table[0], s.table[1], s.buffer[0];
            && IdIn(Flatten, one).Nested? && IdIn(Flatten, other).Nested? && b !in s.table
            && (forall f :: RowMatches(b, f) <==> RowMatches(one, f))
            && (forall f :: ItemMatches(Flatten(b), f) <==> RowMatches(other, f))
            && Dated(Flatten(b)) && !Keeps(Flatten, b)
  {
    RetypedItem();
  }

  lemma RetypedItem()
    ensures var item := Flatten(Raising().buffer[0]);
            && Get(item, "type") == Str("B") && Get(item, "level") == Str("info") && Get(item, "timestamp") == Num(0)
  {}

  /** In such a state nothing of a flush is seen although it is not transparent: reads that raise hide it. */
  lemma RaisingHides(first: Fault, second: Fault, f: Filters)
    ensures !Transparent(Flatten, Raising()) && Unseen(Flatten, Raising(), first, second, f)
  {
    var s := Raising();
    var s' := Flush(s, first, second);
    var one, other, b := s.table[0], s.table[1], s.buffer[0];
    RaisingItems();
    assert !Harmless(Flatten, s, b) && b in s.buffer;
    RaisingReached();
    TableGrows(s, first, second);
    FlushConserves(s, first, second);
    BufferAfter(s, first, second);
    forall before, after | IsQuery(before, s.table, f) && IsQuery(after, s'.table, f)
      ensures SameAnswer(Answer(Flatten, before, s.buffer, f), Answer(Flatten, after, s'.buffer, f))
    {
      if e :| e in s.table && RowMatches(e, f) {
        assert e == one || e == other;
        NestedRaises(Flatten, before, s.buffer, f, e);
        NestedRaises(Flatten, after, s'.buffer, f, e);
      } else {
        assert one in s.table && other in s.table;
        forall e | e in s'.table ensures !RowMatches(e, f) { assert e in Entries(s') && e in Entries(s); }
        EmptyOrHas(before);
        EmptyOrHas(after);
        NoneAnswers(Flatten, s.buffer, f);
        NoneAnswers(Flatten, s'.buffer, f);
      }
    }
  }

  /** Two entries logged, flushed, and a third one logged. */
  lemma RaisingRun() returns (trace: seq<State>, events: seq<Event>)
    ensures IsRun(trace, events) && |trace| == 5 && trace[4] == Raising()
  {
    var one, other, b := Raising().table[0], Raising().table[1], Raising().buffer[0];
    var s1 := State([one], [one], [], [], 0);
    var s2 := State([one, other], [one, other], [], [], 0);
    var s3 := State([one, other], [], [one, other], [], 0);
    events := [Logged(one, None, None), Logged(other, None, None), Flushed(None, None), Logged(b, None, None)];
    trace := [INIT, s1, s2, s3, Raising()];
    assert Flush(s2, None, None) == s3 by { InsertTwo(one, other); }
    RaisingSteps();
    assert StepAt(trace, events, 0) && StepAt(trace, events, 1) && StepAt(trace, events, 2) && StepAt(trace, events, 3);
  }

  lemma InsertTwo(a: Entry, b: Entry)
    requires a.id != b.id
    ensures InsertAll([], [a, b]) == [a, b]
  {
    assert [a, b][..1] == [a] && [a][..0] == [];
    assert InsertAll([], [a]) == [a];
  }

  lemma RaisingSteps()
    ensures var one, other, b := Raising().table[0], Raising().table[1], Raising().buffer[0];
            var s1 := State([one], [one], [], [], 0);
            var s2 := State([one, other], [one, other], [], [], 0);
            var s3 := State([one, other], [], [one, other], [], 0);
            && Enabled(INIT, Logged(one, None, None)) && Next(INIT, Logged(one, None, None)) == s1
            && Enabled(s1, Logged(other, None, None)) && Next(s1, Logged(other, None, None)) == s2
            && Enabled(s3, Logged(b, None, None)) && Next(s3, Logged(b, None, None)) == Raising()
  {}

  lemma RaisingReached()
    ensures Placed(Raising())
  {
    var trace, events := RaisingRun();
    Conserved(trace, events, 4);
  }

  function Clashing(id: string): Entry {
    MakeEntry(id, "t", "info", "", 0, map["id" := Str("x")])
  }

  /** Two entries whose payloads name the same id: the unfiltered read shows both before a flush that writes
      only the first, and one afterwards. */
  lemma OverrideExample() returns (trace: seq<State>, events: seq<Event>)
    ensures IsRun(trace, events) && |trace| == 3 && trace[2].buffer == [Clashing("a"), Clashing("b")]
    ensures trace[2].table == [] && Combined([], trace[2].buffer, ALL).Some?
            && |Combined([], trace[2].buffer, ALL).value| == 2
    ensures var s := Flush(trace[2], Some(1), Some(1));
            && s.buffer == trace[2].buffer && s.table == [Clashing("a")]
            && Combined(s.table, s.buffer, ALL) == Some([Flatten(Clashing("a"))])
  {
    trace, events := ClashingRun();
    ClashingAnswers();
    FlushClashing(trace[2]);
  }

  lemma ClashingRun() returns (trace: seq<State>, events: seq<Event>)
    ensures IsRun(trace, events) && |trace| == 3
    ensures trace[2] == State([Clashing("a"), Clashing("b")], [Clashing("a"), Clashing("b")], [], [], 0)
  {
    var a, b := Clashing("a"), Clashing("b");
    events := [Logged(a, None, None), Logged(b, None, None)];
    trace := [INIT, State([a], [a], [], [], 0), State([a, b], [a, b], [], [], 0)];
    ClashingSteps();
    assert StepAt(trace, events, 0) && StepAt(trace, events, 1);
  }

  lemma ClashingAnswers()
    ensures var a, b := Clashing("a"), Clashing("b");
            && Combined([], [a, b], ALL).Some? && |Combined([], [a, b], ALL).value| == 2
            && Combined([a], [a, b], ALL) == Some([Flatten(a)])
  {
    ClashingItems();
    ClashingReads(Flatten, Clashing("a"), Clashing("b"));
  }

  lemma ClashingSteps()
    ensures var a, b := Clashing("a"), Clashing("b");
            var s1 := State([a], [a], [], [], 0);
            && Enabled(INIT, Logged(a, None, None)) && Next(INIT, Logged(a, None, None)) == s1
            && Enabled(s1, Logged(b, None, None))
            && Next(s1, Logged(b, None, None)) == State([a, b], [a, b], [], [], 0)
  {}

  lemma ClashingItems()
    ensures var a, b := Flatten(Clashing("a")), Flatten(Clashing("b"));
            IdOf(a) == IdOf(b) == Str("x") && Dated(a) && Dated(b)
  {}

  lemma ClashingReads(flat: Entry -> Item, a: Entry, b: Entry)
    requires IdIn(flat, a) == IdIn(flat, b) && !IdIn(flat, a).Nested? && Dated(flat(a)) && Dated(flat(b))
    ensures Answer(flat, [], [a, b], ALL).Some? && |Answer(flat, [], [a, b], ALL).value| == 2
    ensures Answer(flat, [a], [a, b], ALL) == Some([flat(a)])
  {
    FilterSilent(flat, [a, b], ALL);
    ClashingMerged(flat, a, b);
    SortSizes(flat(a), flat(b));
  }

  lemma ClashingMerged(flat: Entry -> Item, a: Entry, b: Entry)
    requires IdIn(flat, a) == IdIn(flat, b)
    ensures Merged(flat, [], [a, b], ALL) == [flat(a), flat(b)] && Merged(flat, [a], [a, b], ALL) == [flat(a)]
  {
    var x, y := flat(a), flat(b);
    assert Each(flat, [a, b]) == [x, y] && Each(flat, [a]) == [x] && Each(flat, []) == [];
    TwoItems(x, y);
    assert [x] + [] == [x] && [] + [x, y] == [x, y];
  }

  lemma SortSizes(x: Item, y: Item)
    ensures Sort(NoOlder, [x]) == [x] && |Sort(NoOlder, [x, y])| == 2
  {
    SortPermutes(NoOlder, [x, y]);
    assert |Sort(NoOlder, [x, y])| == |multiset(Sort(NoOlder, [x, y]))| == |multiset([x, y])|;
  }

  lemma TwoItems(x: Item, y: Item)
    requires IdOf(x) == IdOf(y)
    ensures FilterItems([x, y], ALL) == [x, y]
    ensures NotIn([x, y], Ids([])) == [x, y] && NotIn([x, y], Ids([x])) == []
  {
    assert [x, y][..1] == [x] && [x][..0] == [];
    assert FilterItems([x], ALL) == [x];
    assert Ids([]) == {} && IdOf(x) in Ids([x]) by { assert IdOf([x][0]) == IdOf(x); }
    assert NotIn([x], Ids([])) == [x];
    assert NotIn([x], Ids([x])) == [];
  }

  lemma FlushClashing(s: State)
    requires s == State([Clashing("a"), Clashing("b")], [Clashing("a"), Clashing("b")], [], [], 0)
    ensures var t := Flush(s, Some(1), Some(1)); t.buffer == s.buffer && t.table == [Clashing("a")]
  {
    var a := Clashing("a");
    assert s.buffer[..1] == [a] && [a][..0] == [];
    assert InsertAll([], [a]) == [a];
    assert HasId([a], a.id) by { assert [a][0].id == a.id; }
    assert InsertAll([a], [a]) == [a];
  }

  // ---- paging ----

  function NormalLimit(limit: int): nat { if 1 <= limit <= 200 then limit else 50 }

  function NormalPage(page: int): nat { if page >= 1 then page else 1 }

  function NormalBound(b: Option<int>): Option<int> { if b.Some? && b.value >= 0 then b else None }

  function Min(a: nat, b: nat): nat { if a < b then a else b }

  function Page(items: seq<Item>, limit: nat, page: nat): seq<Item>
    requires limit >= 1 && page >= 1
  {
    items[Min((page - 1) * limit, |items|)..Min((page - 1) * limit + limit, |items|)]
  }

  function PageCount(total: nat, limit: nat): nat
    requires limit >= 1
  {
    if total == 0 then 0 else (total + limit - 1) / limit
  }

  /** The pages are full, one after the other, and no more of them are advertised than it takes. */
  lemma PageExact(items: seq<Item>, limit: nat, page: nat, i: nat)
    requires limit >= 1 && page >= 1
    ensures var r, at := Page(items, limit, page), (page - 1) * limit + i;
            && (i < |r| <==> i < limit && at < |items|) && (i < |r| ==> r[i] == items[at])
            && (page <= PageCount(|items|, limit) <==> (page - 1) * limit < |items|)
  {
    CeilingExact(|items|, limit, page);
  }

  lemma CeilingExact(size: nat, limit: nat, page: nat)
    requires limit >= 1 && page >= 1
    ensures page <= (size + limit - 1) / limit <==> (page - 1) * limit < size
  {
    var n := (size + limit - 1) / limit;
    if page <= n {
      assert (page - 1) * limit <= (n - 1) * limit;
    } else {
      assert n * limit <= (page - 1) * limit;
    }
  }

  function Pages(items: seq<Item>, limit: nat, n: nat): seq<Item>
    requires limit >= 1
  {
    if n == 0 then [] else Pages(items, limit, n - 1) + Page(items, limit, n)
  }

  lemma {:induction false} PagesPrefix(items: seq<Item>, limit: nat, n: nat)
    requires limit >= 1
    ensures Pages(items, limit, n) == items[..Min(n * limit, |items|)]
  {
    if n > 0 {
      PagesPrefix(items, limit, n - 1);
      assert (n - 1) * limit + limit == n * limit;
    }
  }

  lemma CeilingCovers(size: nat, limit: nat)
    requires limit >= 1
    ensures (size + limit - 1) / limit * limit >= size
  {}

  /** The advertised pages, one after the other, are the whole read. */
  lemma PagesCover(items: seq<Item>, limit: nat)
    requires limit >= 1
    ensures Pages(items, limit, PageCount(|items|, limit)) == items
  {
    var n := PageCount(|items|, limit);
    PagesPrefix(items, limit, n);
    CeilingCovers(|items|, limit);
  }

  /** A page of a read, the number of all its items and the number of pages. */
  datatype Result = Result(logs: seq<Item>, total: nat, pages: nat)

  class OperationLogger {
    var buffer: seq<Entry>
    var table: seq<Entry>
    var flushFailCount: nat
    ghost var log: seq<Entry>
    ghost var evicted: seq<Entry>

    constructor ()
      ensures View() == INIT
    {
      buffer, table, flushFailCount, log, evicted := [], [], 0, [], [];
    }

    ghost function View(): State
      reads this
    {
      State(log, buffer, table, evicted, flushFailCount)
    }

    method LogEntry(id: string, kind: string, payload: map<string, Value>, level: string, time: string, now: int,
                    first: Fault, second: Fault)
      modifies this
      ensures View() == Log(old(View()), MakeEntry(id, kind, level, time, now, payload), first, second)
    {
      var entry := MakeEntry(id, kind, level, time, now, payload);
      if |buffer| >= BUFFER_SIZE {
        evicted := evicted + [buffer[0]];
        buffer := buffer[1..];
      }
      buffer := buffer + [entry];
      log := log + [entry];
      if |buffer| >= BUFFER_SIZE {
        FlushBuffer(first, second);
      }
    }

    /** The statements of one attempt, each committed by itself. */
    method WriteAll(snapshot: seq<Entry>, fault: Fault) returns (ok: bool)
      modifies `table
      ensures (table, ok) == Attempt(old(table), snapshot, fault)
    {
      var i := 0;
      while i < |snapshot|
        invariant 0 <= i <= |snapshot|
        invariant fault.Some? ==> i <= fault.value || |snapshot| <= fault.value
        invariant table == InsertAll(old(table), snapshot[..i])
      {
        if fault == Some(i) {
          return false;
        }
        assert snapshot[..i + 1][..i] == snapshot[..i];
        table := InsertOrIgnore(table, snapshot[i]);
        i := i + 1;
      }
      assert snapshot[..i] == snapshot;
      ok := true;
    }

    method FlushBuffer(first: Fault, second: Fault)
      modifies `buffer, `table, `flushFailCount
      ensures View() == Flush(old(View()), first, second)
    {
      if buffer == [] {
        return;
      }
      var snapshot := buffer;
      buffer := [];
      var ok := WriteAll(snapshot, first);
      if ok {
        return;
      }
      ok := WriteAll(snapshot, second);
      if !ok {
        buffer := snapshot + buffer;
        assert buffer == snapshot;
        flushFailCount := flushFailCount + 1;
      }
    }

    static method Keep(items: seq<Item>, f: Filters) returns (filtered: seq<Item>)
      ensures filtered == FilterItems(items, f)
    {
      filtered := [];
      for i := 0 to |items|
        invariant filtered == FilterItems(items[..i], f)
      {
        assert items[..i + 1][..i] == items[..i];
        if ItemMatches(items[i], f) {
          filtered := filtered + [items[i]];
        }
      }
      assert items[..|items|] == items;
    }

    /** The merge; `rows` is the database's answer to the query, and None an exception. */
    method GetCombinedItems(rows: seq<Entry>, f: Filters) returns (answer: Option<seq<Item>>)
      ensures answer == Combined(rows, buffer, f)
    {
      var flat := Each(Flatten, buffer);
      if FilterRaises(flat, f) {
        return None;
      }
      var filtered := Keep(flat, f);
      var combined := Each(Flatten, rows);
      var dbIds := Ids(combined);
      for i := 0 to |filtered|
        invariant combined == Each(Flatten, rows) + NotIn(filtered[..i], dbIds)
      {
        assert filtered[..i + 1] == filtered[..i] + [filtered[i]];
        NotInSnoc(filtered[..i], filtered[i], dbIds);
        if IdOf(filtered[i]) !in dbIds {
          combined := combined + [filtered[i]];
        }
      }
      assert filtered[..|filtered|] == filtered;
      if MergeRaises(combined) {
        return None;
      }
      answer := Some(Sort(NoOlder, combined));
    }

    /** The public read: limits are normalised and crossed time bounds are swapped before the query. */
    method GetPage(limit: int, page: int, kind: string, level: string, start: Option<int>, end: Option<int>,
                   answer: Filters -> seq<Entry>)
      returns (result: Option<Result>, used: Filters)
      ensures Normal(used) && used.kind == kind && used.level == level
      ensures used.start.Some? && used.end.Some? ==> used.start.value <= used.end.value
      ensures {used.start, used.end} == {NormalBound(start), NormalBound(end)}
      ensures NormalBound(start).None? || NormalBound(end).None? ==> used.start == NormalBound(start)
      ensures match Combined(answer(used), buffer, used)
              case None => result == None
              case Some(items) =>
                var size := if 1 <= limit <= 200 then limit else 50;
                result == Some(Result(Page(items, size, if page >= 1 then page else 1), |items|,
                                      PageCount(|items|, size)))
    {
      var from, to := NormalBound(start), NormalBound(end);
      if from.Some? && to.Some? && from.value > to.value {
        from, to := to, from;
      }
      used := Filters(kind, level, from, to);
      var items := GetCombinedItems(answer(used), used);
      if items.None? {
        return None, used;
      }
      var total := |items.value|;
      result := Some(Result(Page(items.value, NormalLimit(limit), NormalPage(page)), total,
                            PageCount(total, NormalLimit(limit))));
    }
  }
}
