/** Small vocabulary shared by the modules: an option type and facts about sequences. */
module Common {

  datatype Option<+T> = None | Some(value: T)

  ghost predicate Distinct<T>(s: seq<T>) {
    forall i, j :: 0 <= i < j < |s| ==> s[i] != s[j]
  }

  function Filter<T>(keep: T -> bool, s: seq<T>): seq<T> {
    if s == [] then []
    else if keep(s[0]) then [s[0]] + Filter(keep, s[1..])
    else Filter(keep, s[1..])
  }

  lemma {:induction false} FilterConcat<T>(keep: T -> bool, a: seq<T>, b: seq<T>)
    ensures Filter(keep, a + b) == Filter(keep, a) + Filter(keep, b)
  {
    if a == [] {
      assert a + b == b;
    } else {
      FilterConcat(keep, a[1..], b);
      assert (a + b)[0] == a[0] && (a + b)[1..] == a[1..] + b;
    }
  }

  lemma DistinctConcat<T>(a: seq<T>, b: seq<T>)
    requires Distinct(a) && Distinct(b) && forall x :: x in a ==> x !in b
    ensures Distinct(a + b)
  {
    forall i, j | 0 <= i < j < |a + b| ensures (a + b)[i] != (a + b)[j] {
      if i < |a| <= j {
        assert (a + b)[i] in a && (a + b)[j] in b;
      } else if |a| <= i {
        assert (a + b)[i] == b[i - |a|] && (a + b)[j] == b[j - |a|];
      }
    }
  }

  lemma {:induction false} DistinctCounts<T>(s: seq<T>, x: T)
    requires Distinct(s)
    ensures multiset(s)[x] == if x in s then 1 else 0
  {
    if s != [] {
      assert s == [s[0]] + s[1..];
      assert Distinct(s[1..]) by {
        forall i, j | 0 <= i < j < |s[1..]| ensures s[1..][i] != s[1..][j] {
          assert s[i + 1] != s[j + 1];
        }
      }
      DistinctCounts(s[1..], x);
    }
  }

  lemma CountsDistinct<T>(s: seq<T>)
    requires forall x :: x in s ==> multiset(s)[x] == 1
    ensures Distinct(s)
  {
    forall i, j | 0 <= i < j < |s| ensures s[i] != s[j] {
      assert s == s[..j] + [s[j]] + s[j + 1..];
      assert multiset(s) == multiset(s[..j]) + multiset{s[j]} + multiset(s[j + 1..]);
      assert s[..j][i] == s[i] && s[i] in multiset(s[..j]);
      assert s[j] in s && multiset(s)[s[j]] == 1;
    }
  }

  /** Without repeats, the same members are the same multiset. */
  lemma SameMembers<T>(a: seq<T>, b: seq<T>)
    requires Distinct(a) && Distinct(b) && forall x :: x in a <==> x in b
    ensures multiset(a) == multiset(b)
  {
    forall x ensures multiset(a)[x] == multiset(b)[x] {
      DistinctCounts(a, x);
      DistinctCounts(b, x);
    }
  }

  lemma PermutedDistinct<T>(a: seq<T>, b: seq<T>)
    requires Distinct(a) && multiset(a) == multiset(b)
    ensures Distinct(b) && forall x :: x in a <==> x in b
  {
    forall x ensures x in a <==> x in b {
      assert x in multiset(a) <==> x in multiset(b);
    }
    forall x | x in b ensures multiset(b)[x] == 1 { DistinctCounts(a, x); }
    CountsDistinct(b);
  }

  lemma {:induction false} FilterExact<T>(keep: T -> bool, s: seq<T>)
    ensures forall x :: x in Filter(keep, s) <==> x in s && keep(x)
    ensures Distinct(s) ==> Distinct(Filter(keep, s))
  {
    if s != [] {
      FilterExact(keep, s[1..]);
      assert s == [s[0]] + s[1..];
      if Distinct(s) {
        forall i, j | 0 <= i < j < |s[1..]| ensures s[1..][i] != s[1..][j] { assert s[i + 1] != s[j + 1]; }
        forall k | 0 <= k < |s[1..]| ensures s[1..][k] != s[0] { assert s[k + 1] != s[0]; }
        DistinctConcat([s[0]], Filter(keep, s[1..]));
      }
    }
  }

  // ---- a stable sort, largest first ----

  ghost predicate Preorder<T(!new)>(ge: (T, T) -> bool) {
    (forall x, y :: ge(x, y) || ge(y, x)) && (forall x, y, z :: ge(x, y) && ge(y, z) ==> ge(x, z))
  }

  ghost predicate Descending<T>(ge: (T, T) -> bool, s: seq<T>) {
    forall i, j :: 0 <= i < j < |s| ==> ge(s[i], s[j])
  }

  function Insert<T>(ge: (T, T) -> bool, x: T, sorted: seq<T>): seq<T> {
    if sorted == [] || ge(x, sorted[0]) then [x] + sorted else [sorted[0]] + Insert(ge, x, sorted[1..])
  }

  function Sort<T>(ge: (T, T) -> bool, s: seq<T>): seq<T> {
    if s == [] then [] else Insert(ge, s[0], Sort(ge, s[1..]))
  }

  lemma {:induction false} InsertMembers<T>(ge: (T, T) -> bool, x: T, sorted: seq<T>)
    ensures multiset(Insert(ge, x, sorted)) == multiset{x} + multiset(sorted)
  {
    if !(sorted == [] || ge(x, sorted[0])) {
      InsertMembers(ge, x, sorted[1..]);
      assert sorted == [sorted[0]] + sorted[1..];
    }
  }

  lemma {:induction false} InsertSorts<T(!new)>(ge: (T, T) -> bool, x: T, sorted: seq<T>)
    requires Preorder(ge) && Descending(ge, sorted)
    ensures Descending(ge, Insert(ge, x, sorted))
  {
    if sorted == [] || ge(x, sorted[0]) {
      forall k | 0 <= k < |sorted| ensures ge(x, sorted[k]) {
        assert k == 0 || ge(sorted[0], sorted[k]);
      }
    } else {
      var tail := sorted[1..];
      var rest := Insert(ge, x, tail);
      InsertSorts(ge, x, tail);
      InsertMembers(ge, x, tail);
      forall k | 0 <= k < |rest| ensures ge(sorted[0], rest[k]) {
        assert rest[k] in multiset(rest);
        assert rest[k] == x || rest[k] in multiset(tail);
        assert ge(sorted[0], x);
      }
    }
  }

  lemma {:induction false} SortPermutes<T>(ge: (T, T) -> bool, s: seq<T>)
    ensures multiset(Sort(ge, s)) == multiset(s)
  {
    if s != [] {
      SortPermutes(ge, s[1..]);
      InsertMembers(ge, s[0], Sort(ge, s[1..]));
      assert s == [s[0]] + s[1..];
    }
  }

  lemma {:induction false} SortSorts<T(!new)>(ge: (T, T) -> bool, s: seq<T>)
    requires Preorder(ge)
    ensures Descending(ge, Sort(ge, s))
  {
    if s != [] {
      SortSorts(ge, s[1..]);
      InsertSorts(ge, s[0], Sort(ge, s[1..]));
    }
  }
}
