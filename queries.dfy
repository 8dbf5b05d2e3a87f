/**
 * The LINQ query shapes the repository uses, over values: a table scan,
 * `Where`, `OrderBy`/`ThenBy` (a stable sort), `Any`, and `Skip`/`Take`
 * paging as SQL Server evaluates it. Also the 32-bit `int` arithmetic of
 * the paging offset.
 */
module Queries {
  import opened Wrappers

  // ---------------------------------------------------------------- table scan

  /** The smallest key of a non-empty table. */
  function MinKey<T>(m: map<int, T>): (k: int)
    requires |m| > 0
    ensures k in m && forall j :: j in m ==> k <= j
  {
    MinKeyExists(m.Keys);
    var k :| k in m && forall j :: j in m ==> k <= j; k
  }

  lemma {:induction false} MinKeyExists(ks: set<int>)
    requires ks != {}
    ensures exists k :: k in ks && forall j :: j in ks ==> k <= j
    decreases |ks|
  {
    if forall k :: k !in ks {
      assert false;
    }
    var x :| x in ks;
    var rest := ks - {x};
    assert |rest| == |ks| - 1;
    if rest == {} {
      forall j | j in ks ensures x <= j {
        assert j !in rest;
      }
    } else {
      MinKeyExists(rest);
      var m :| m in rest && forall j :: j in rest ==> m <= j;
      if x < m {
        forall j | j in ks ensures x <= j {
          if j != x { assert j in rest; }
        }
      } else {
        forall j | j in ks ensures m <= j {
          if j != x { assert j in rest; }
        }
      }
    }
  }

  /** The rows of a table in ascending key (identity) order: the model's choice of scan order. */
  function Rows<T>(m: map<int, T>): (r: seq<T>)
    ensures |r| == |m|
    decreases |m|
  {
    if |m| == 0 then []
    else
      var k := MinKey(m);
      assert m.Keys == (m - {k}).Keys + {k};
      [m[k]] + Rows(m - {k})
  }

  /** A table scan yields exactly the table's values. */
  lemma {:induction false} RowsMembership<T>(m: map<int, T>)
    ensures forall x :: x in Rows(m) <==> x in m.Values
    decreases |m|
  {
    if |m| > 0 {
      var k := MinKey(m);
      var rest := m - {k};
      assert m.Keys == rest.Keys + {k};
      RowsMembership(rest);
      assert Rows(m) == [m[k]] + Rows(rest);
      forall x ensures x in Rows(m) <==> x in m.Values {
        if x in m.Values {
          var j :| j in m && m[j] == x;
          if j != k { assert j in rest && rest[j] == x; }
        }
        if x in rest.Values {
          var j :| j in rest && rest[j] == x;
          assert j in m && m[j] == x;
        }
      }
    }
  }

  /** The keys under which a table stores the row `x`. */
  ghost function KeysHolding<T>(m: map<int, T>, x: T): set<int> {
    set k | k in m && m[k] == x
  }

  /** A table scan holds each row as many times as the table stores it. */
  lemma RowsCount<T>(m: map<int, T>)
    ensures forall x :: multiset(Rows(m))[x] == |KeysHolding(m, x)|
  {
    forall x ensures multiset(Rows(m))[x] == |KeysHolding(m, x)| {
      RowsCountOf(m, x);
    }
  }

  lemma {:induction false} RowsCountOf<T>(m: map<int, T>, x: T)
    ensures multiset(Rows(m))[x] == |KeysHolding(m, x)|
    decreases |m|
  {
    if |m| == 0 {
      assert KeysHolding(m, x) == {};
    } else {
      var k := MinKey(m);
      var rest := m - {k};
      assert m.Keys == rest.Keys + {k};
      RowsCountOf(rest, x);
      assert Rows(m) == [m[k]] + Rows(rest);
      KeysHoldingRemove(m, k, x);
    }
  }

  /** Taking key `k` out of a table takes it out of the keys holding each row. */
  lemma KeysHoldingRemove<T>(m: map<int, T>, k: int, x: T)
    requires k in m
    ensures |KeysHolding(m, x)| == |KeysHolding(m - {k}, x)| + if m[k] == x then 1 else 0
  {
    var rest := m - {k};
    if m[k] == x {
      assert KeysHolding(m, x) == KeysHolding(rest, x) + {k};
    } else {
      assert KeysHolding(m, x) == KeysHolding(rest, x);
    }
  }

  /** A stored row is stored under some key. */
  lemma ValueHasKey<T>(m: map<int, T>, x: T)
    requires x in m.Values
    ensures exists j :: j in m && m[j] == x
  {
    if forall j :: j in m ==> m[j] != x {
      assert false;
    }
  }

  /** In a table whose every row carries its own key, a row is stored once or not at all. */
  lemma KeyedRowsOnce<T>(m: map<int, T>, idOf: T -> int)
    requires forall k :: k in m ==> idOf(m[k]) == k
    ensures forall x: T :: |KeysHolding(m, x)| == if x in m.Values then 1 else 0
  {
    forall x: T ensures |KeysHolding(m, x)| == if x in m.Values then 1 else 0 {
      KeyedRowOnce(m, idOf, x);
    }
  }

  lemma KeyedRowOnce<T>(m: map<int, T>, idOf: T -> int, x: T)
    requires forall k :: k in m ==> idOf(m[k]) == k
    ensures |KeysHolding(m, x)| == if x in m.Values then 1 else 0
  {
    if x in m.Values {
      ValueHasKey(m, x);
      var j :| j in m && m[j] == x;
      forall k | k in KeysHolding(m, x) ensures k == j {
        assert idOf(m[k]) == k && idOf(m[j]) == j;
      }
      assert KeysHolding(m, x) == {j};
    } else {
      assert KeysHolding(m, x) == {};
    }
  }

  // ---------------------------------------------------------------- Where

  /** `Where`: the elements of `s` that satisfy `keep`, in their original order. */
  function Filter<T>(s: seq<T>, keep: T -> bool): (r: seq<T>)
    ensures |r| <= |s|
    ensures forall i :: 0 <= i < |r| ==> keep(r[i])
  {
    if s == [] then [] else (if keep(s[0]) then [s[0]] else []) + Filter(s[1..], keep)
  }

  /** An element is in the filtered sequence exactly when it is in the source and satisfies the filter. */
  lemma {:induction false} FilterMembership<T>(s: seq<T>, keep: T -> bool)
    ensures forall x :: x in Filter(s, keep) <==> x in s && keep(x)
  {
    if s != [] {
      FilterMembership(s[1..], keep);
      assert s == [s[0]] + s[1..];
    }
  }

  /** Filtering distributes over concatenation, so it keeps the original order. */
  lemma {:induction false} FilterAppend<T>(s: seq<T>, t: seq<T>, keep: T -> bool)
    ensures Filter(s + t, keep) == Filter(s, keep) + Filter(t, keep)
  {
    if s == [] {
      assert s + t == t;
    } else {
      assert (s + t)[1..] == s[1..] + t;
      FilterAppend(s[1..], t, keep);
    }
  }

  /** Filtering a sequence whose every element passes leaves it as it is. */
  lemma {:induction false} FilterKeepsAll<T>(s: seq<T>, keep: T -> bool)
    requires forall i :: 0 <= i < |s| ==> keep(s[i])
    ensures Filter(s, keep) == s
  {
    if s != [] {
      FilterKeepsAll(s[1..], keep);
      assert s == [s[0]] + s[1..];
    }
  }

  /** `Where` keeps every copy of a matching element and none of the others. */
  lemma {:induction false} FilterCount<T>(s: seq<T>, keep: T -> bool)
    ensures forall x :: multiset(Filter(s, keep))[x] == if keep(x) then multiset(s)[x] else 0
  {
    if s != [] {
      FilterCount(s[1..], keep);
      assert s == [s[0]] + s[1..];
    }
  }

  /** `Where(keep).Any()` over a table: some row satisfies `keep`. */
  function AnyRow<T(==)>(m: map<int, T>, keep: T -> bool): (r: bool)
    ensures r <==> exists k :: k in m && keep(m[k])
  {
    AnyRowWitness(m, keep);
    Filter(Rows(m), keep) != []
  }

  lemma {:induction false} FilterEmpty<T>(s: seq<T>, keep: T -> bool)
    ensures Filter(s, keep) == [] <==> forall i :: 0 <= i < |s| ==> !keep(s[i])
  {
    if s != [] {
      FilterEmpty(s[1..], keep);
      if Filter(s, keep) == [] {
        forall i | 0 <= i < |s| ensures !keep(s[i]) {
          if i > 0 { assert s[i] == s[1..][i - 1]; }
        }
      }
      if forall i :: 0 <= i < |s| ==> !keep(s[i]) {
        forall i | 0 <= i < |s[1..]| ensures !keep(s[1..][i]) {
          assert s[1..][i] == s[i + 1];
        }
      }
    }
  }

  lemma AnyRowWitness<T>(m: map<int, T>, keep: T -> bool)
    ensures Filter(Rows(m), keep) != [] <==> exists k :: k in m && keep(m[k])
  {
    var rows := Rows(m);
    RowsMembership(m);
    FilterEmpty(rows, keep);
    if Filter(rows, keep) != [] {
      var i :| 0 <= i < |rows| && keep(rows[i]);
      assert rows[i] in rows;
      var k :| k in m && m[k] == rows[i];
    } else {
      forall k | k in m ensures !keep(m[k]) {
        assert m[k] in m.Values;
        var i :| 0 <= i < |rows| && rows[i] == m[k];
      }
    }
  }

  // ---------------------------------------------------------------- OrderBy

  ghost predicate Total<T(!new)>(le: (T, T) -> bool) {
    forall a, b :: le(a, b) || le(b, a)
  }

  ghost predicate Transitive<T(!new)>(le: (T, T) -> bool) {
    forall a, b, c :: le(a, b) && le(b, c) ==> le(a, c)
  }

  /** Each element is ordered before or equal to its successor. */
  predicate Sorted<T>(s: seq<T>, le: (T, T) -> bool) {
    forall i :: 0 < i < |s| ==> le(s[i - 1], s[i])
  }

  /** Insert `x` into `s` before the first element it may precede. */
  function Insert<T>(x: T, s: seq<T>, le: (T, T) -> bool): (r: seq<T>)
    ensures |r| == |s| + 1
  {
    if s == [] then [x]
    else if le(x, s[0]) then [x] + s
    else [s[0]] + Insert(x, s[1..], le)
  }

  /** A stable insertion sort: `OrderBy` with the key comparison `le`. */
  function SortBy<T>(s: seq<T>, le: (T, T) -> bool): (r: seq<T>)
    ensures |r| == |s|
  {
    if s == [] then [] else Insert(s[0], SortBy(s[1..], le), le)
  }

  lemma {:induction false} InsertPermutes<T>(x: T, s: seq<T>, le: (T, T) -> bool)
    ensures multiset(Insert(x, s, le)) == multiset(s) + multiset{x}
  {
    if s != [] && !le(x, s[0]) {
      InsertPermutes(x, s[1..], le);
      assert s == [s[0]] + s[1..];
    }
  }

  /** Sorting rearranges and neither adds nor drops elements. */
  lemma {:induction false} SortByPermutes<T>(s: seq<T>, le: (T, T) -> bool)
    ensures multiset(SortBy(s, le)) == multiset(s)
  {
    if s != [] {
      SortByPermutes(s[1..], le);
      InsertPermutes(s[0], SortBy(s[1..], le), le);
      assert s == [s[0]] + s[1..];
    }
  }

  lemma {:induction false} InsertSorted<T(!new)>(x: T, s: seq<T>, le: (T, T) -> bool)
    requires Total(le) && Sorted(s, le)
    ensures Sorted(Insert(x, s, le), le)
    ensures Insert(x, s, le)[0] == x || (s != [] && Insert(x, s, le)[0] == s[0])
  {
    if s != [] && !le(x, s[0]) {
      InsertSorted(x, s[1..], le);
      assert le(s[0], x);
      var r := Insert(x, s, le);
      assert r == [s[0]] + Insert(x, s[1..], le);
      forall i | 0 < i < |r| ensures le(r[i - 1], r[i]) {
        if i > 1 {
          assert r[i - 1] == Insert(x, s[1..], le)[i - 2];
        }
      }
    }
  }

  /** With a total comparison the result of sorting is sorted. */
  lemma {:induction false} SortBySorted<T(!new)>(s: seq<T>, le: (T, T) -> bool)
    requires Total(le)
    ensures Sorted(SortBy(s, le), le)
  {
    if s != [] {
      SortBySorted(s[1..], le);
      InsertSorted(s[0], SortBy(s[1..], le), le);
    }
  }

  /** With a transitive comparison, "each before its successor" gives "each before every later one". */
  lemma {:induction false} SortedPairwise<T(!new)>(s: seq<T>, le: (T, T) -> bool)
    requires Transitive(le) && Sorted(s, le)
    ensures forall i, j :: 0 <= i < j < |s| ==> le(s[i], s[j])
  {
    forall i, j | 0 <= i < j < |s| ensures le(s[i], s[j]) {
      var k := i + 1;
      while k < j
        invariant i < k <= j
        invariant le(s[i], s[k])
      {
        assert le(s[k], s[k + 1]);
        k := k + 1;
      }
    }
  }

  /**
   * A table scan, filtered and sorted: holds exactly the matching rows, in order,
   * each as many times as the table stores it.
   */
  lemma ScanFilterSort<T(!new)>(m: map<int, T>, keep: T -> bool, le: (T, T) -> bool)
    requires Total(le)
    ensures var r := SortBy(Filter(Rows(m), keep), le);
      && Sorted(r, le)
      && (forall x :: x in r <==> x in m.Values && keep(x))
      && (forall x :: multiset(r)[x] == if keep(x) then |KeysHolding(m, x)| else 0)
  {
    SortBySorted(Filter(Rows(m), keep), le);
    ScanFilterSortMembers(m, keep, le);
    ScanFilterSortCount(m, keep, le);
  }

  lemma ScanFilterSortMembers<T>(m: map<int, T>, keep: T -> bool, le: (T, T) -> bool)
    ensures forall x :: x in SortBy(Filter(Rows(m), keep), le) <==> x in m.Values && keep(x)
  {
    var f := Filter(Rows(m), keep);
    RowsMembership(m);
    FilterMembership(Rows(m), keep);
    SortByPermutes(f, le);
    forall x ensures x in SortBy(f, le) <==> x in f {
      assert x in SortBy(f, le) <==> x in multiset(SortBy(f, le));
      assert x in f <==> x in multiset(f);
    }
  }

  lemma ScanFilterSortCount<T>(m: map<int, T>, keep: T -> bool, le: (T, T) -> bool)
    ensures forall x :: multiset(SortBy(Filter(Rows(m), keep), le))[x] == if keep(x) then |KeysHolding(m, x)| else 0
  {
    RowsCount(m);
    FilterCount(Rows(m), keep);
    SortByPermutes(Filter(Rows(m), keep), le);
  }

  // ---------------------------------------------------------------- paging

  /** Why SQL Server refuses an `OFFSET … FETCH NEXT …` clause. */
  datatype QueryError = NegativeOffset | NonPositiveFetch

  /** `page` is what `Skip(offset).Take(fetch)` leaves of `s`: as long as Take allows, and the run of `s` from `offset`. */
  predicate PageSlice<T(==)>(s: seq<T>, offset: int, fetch: int, page: seq<T>) {
    && 0 <= offset
    && |page| == (if offset + fetch <= |s| then fetch else if offset <= |s| then |s| - offset else 0)
    && forall i :: 0 <= i < |page| ==> page[i] == s[offset + i]
  }

  /**
   * `Skip(offset).Take(fetch)` translated to `OFFSET offset ROWS FETCH NEXT fetch ROWS ONLY`:
   * the server rejects a negative offset and a fetch count below one; otherwise the
   * result is the `fetch` elements starting at `offset`, or fewer at the end.
   */
  function Page<T(==)>(s: seq<T>, offset: int, fetch: int): (r: Result<seq<T>, QueryError>)
    ensures r.Success? <==> offset >= 0 && fetch >= 1
    ensures r.Failure? ==> r.error == (if offset < 0 then NegativeOffset else NonPositiveFetch)
    ensures r.Success? ==> |r.value| <= fetch
    ensures r.Success? ==> |r.value| == (if offset + fetch <= |s| then fetch else if offset <= |s| then |s| - offset else 0)
    ensures r.Success? ==> forall i :: 0 <= i < |r.value| ==> r.value[i] == s[offset + i]
    ensures r.Success? ==> PageSlice(s, offset, fetch, r.value)
  {
    if offset < 0 then Failure(NegativeOffset)
    else if fetch < 1 then Failure(NonPositiveFetch)
    else
      var start := if offset <= |s| then offset else |s|;
      var end := if start + fetch <= |s| then start + fetch else |s|;
      Success(s[start..end])
  }

  // ---------------------------------------------------------------- 32-bit int

  const TwoTo31: int := 0x8000_0000
  const TwoTo32: int := 0x1_0000_0000

  /** C# `int`. */
  type Int32 = x: int | -0x8000_0000 <= x < 0x8000_0000

  /** Unchecked C# `int` arithmetic: the result modulo 2^32, read as a signed value. */
  function Wrap32(x: int): (r: Int32)
    ensures -TwoTo31 <= x < TwoTo31 ==> r == x
    ensures (x - r) % TwoTo32 == 0
  {
    var u := (x + TwoTo31) % TwoTo32;
    assert x + TwoTo31 == TwoTo32 * ((x + TwoTo31) / TwoTo32) + u;
    u - TwoTo31
  }

  /** The offset `(page - 1) * pageSize` as C# computes it on `int`. */
  function PageOffset(page: Int32, pageSize: Int32): (r: Int32)
    ensures -TwoTo31 <= (page - 1) * pageSize < TwoTo31 ==> r == (page - 1) * pageSize
  {
    Wrap32(Wrap32(page - 1) * pageSize)
  }
}
