/** The daily rental table and the two pandas idioms the dashboard builds its
    charts from: summing `cnt` per group (`groupby(key)['cnt'].sum()`) and
    laying those sums out in a fixed category order (`.reindex(order)`), where
    a category with no rows becomes a missing value. */
module Rentals {
  import opened Calendar

  datatype Option<T> = None | Some(value: T)

  datatype Season = Spring | Summer | Fall | Winter

  /** The display order of the seasonal chart. */
  const SeasonOrder: seq<Season> := [Spring, Summer, Fall, Winter]

  /** One row of the daily table: the day, its season and the day's rental count. */
  datatype Record = Record(dteday: Date, season: Season, cnt: int)

  /** Sum of `cnt` over the rows. */
  function Total(rows: seq<Record>): int {
    if rows == [] then 0 else rows[0].cnt + Total(rows[1..])
  }

  lemma {:induction false} TotalConcat(a: seq<Record>, b: seq<Record>)
    ensures Total(a + b) == Total(a) + Total(b)
  {
    if a == [] {
      assert a + b == b;
    } else {
      assert (a + b)[1..] == a[1..] + b;
      TotalConcat(a[1..], b);
    }
  }

  /** A sum of counts none of which exceeds m is at most m per row. */
  lemma {:induction false} TotalAtMost(rows: seq<Record>, m: int)
    requires forall x :: x in rows ==> x.cnt <= m
    ensures Total(rows) <= |rows| * m
  {
    if rows != [] {
      assert forall x :: x in rows[1..] ==> x in rows;
      TotalAtMost(rows[1..], m);
      assert |rows| * m == m + (|rows| - 1) * m;
    }
  }

  /** Largest value of f over the rows. */
  function MaxBy(rows: seq<Record>, f: Record -> int): (m: int)
    requires rows != []
    ensures exists x :: x in rows && f(x) == m
    ensures forall x :: x in rows ==> f(x) <= m
  {
    if |rows| == 1 then f(rows[0])
    else
      var rest := MaxBy(rows[1..], f);
      assert forall x :: x in rows ==> x == rows[0] || x in rows[1..];
      if f(rows[0]) >= rest then f(rows[0]) else rest
  }

  /** Smallest value of f over the rows. */
  function MinBy(rows: seq<Record>, f: Record -> int): (m: int)
    requires rows != []
    ensures exists x :: x in rows && f(x) == m
    ensures forall x :: x in rows ==> m <= f(x)
  {
    if |rows| == 1 then f(rows[0])
    else
      var rest := MinBy(rows[1..], f);
      assert forall x :: x in rows ==> x == rows[0] || x in rows[1..];
      if f(rows[0]) <= rest then f(rows[0]) else rest
  }

  /** `groupby(key)['cnt'].sum()` at one group: the sum of `cnt` over the rows whose key is k. */
  function GroupTotal<K(==)>(rows: seq<Record>, key: Record -> K, k: K): int {
    if rows == [] then 0
    else (if key(rows[0]) == k then rows[0].cnt else 0) + GroupTotal(rows[1..], key, k)
  }

  /** Whether group k has any row, i.e. whether `groupby` produces a row labelled k. */
  predicate Present<K(==)>(rows: seq<Record>, key: Record -> K, k: K) {
    exists x :: x in rows && key(x) == k
  }

  /** A group without rows sums to zero. */
  lemma {:induction false} GroupTotalAbsent<K>(rows: seq<Record>, key: Record -> K, k: K)
    requires !Present(rows, key, k)
    ensures GroupTotal(rows, key, k) == 0
  {
    if rows != [] {
      assert rows[0] in rows;
      assert forall x :: x in rows[1..] ==> x in rows;
      GroupTotalAbsent(rows[1..], key, k);
    }
  }

  /** Group sums are additive over concatenated tables. */
  lemma {:induction false} GroupTotalConcat<K>(a: seq<Record>, b: seq<Record>, key: Record -> K, k: K)
    ensures GroupTotal(a + b, key, k) == GroupTotal(a, key, k) + GroupTotal(b, key, k)
  {
    if a == [] {
      assert a + b == b;
    } else {
      assert (a + b)[1..] == a[1..] + b;
      GroupTotalConcat(a[1..], b, key, k);
    }
  }

  /** `.reindex(order)` of the group sums: one entry per category of order, in
      that order; a category without rows is a missing value. */
  function Reindex<K(==)>(rows: seq<Record>, key: Record -> K, order: seq<K>): (r: seq<Option<int>>)
    ensures |r| == |order|
    ensures forall i :: 0 <= i < |order| ==> (r[i].Some? <==> Present(rows, key, order[i]))
    ensures forall i :: 0 <= i < |order| && r[i].Some? ==> r[i].value == GroupTotal(rows, key, order[i])
  {
    if order == [] then []
    else
      var k := order[0];
      [if Present(rows, key, k) then Some(GroupTotal(rows, key, k)) else None]
        + Reindex(rows, key, order[1..])
  }

  predicate Distinct<K(==)>(s: seq<K>) {
    forall i, j :: 0 <= i < j < |s| ==> s[i] != s[j]
  }

  /** Sum of the present entries: what a chart of the reindexed series adds up to. */
  function PresentSum(entries: seq<Option<int>>): int {
    if entries == [] then 0
    else (if entries[0].Some? then entries[0].value else 0) + PresentSum(entries[1..])
  }

  /** Sum of the group sums of the categories in order. */
  function GroupSums<K(==)>(rows: seq<Record>, key: Record -> K, order: seq<K>): int {
    if order == [] then 0 else GroupTotal(rows, key, order[0]) + GroupSums(rows, key, order[1..])
  }

  /** One more row adds its count to exactly the one category it belongs to, if any. */
  lemma {:induction false} GroupSumsCons<K>(x: Record, t: seq<Record>, key: Record -> K, order: seq<K>)
    requires Distinct(order)
    ensures GroupSums([x] + t, key, order) == (if key(x) in order then x.cnt else 0) + GroupSums(t, key, order)
  {
    if order != [] {
      assert ([x] + t)[0] == x && ([x] + t)[1..] == t;
      assert key(x) in order <==> key(x) == order[0] || key(x) in order[1..];
      assert key(x) == order[0] ==> key(x) !in order[1..];
      GroupSumsCons(x, t, key, order[1..]);
    }
  }

  /** The groups of a distinct category list that covers every row partition the
      table: their sums add up to the total. */
  lemma {:induction false} GroupSumsPartition<K>(rows: seq<Record>, key: Record -> K, order: seq<K>)
    requires Distinct(order)
    requires forall x :: x in rows ==> key(x) in order
    ensures GroupSums(rows, key, order) == Total(rows)
  {
    if rows == [] {
      GroupSumsOfNothing(key, order);
    } else {
      assert rows == [rows[0]] + rows[1..];
      assert forall x :: x in rows[1..] ==> x in rows;
      GroupSumsCons(rows[0], rows[1..], key, order);
      GroupSumsPartition(rows[1..], key, order);
    }
  }

  lemma {:induction false} GroupSumsOfNothing<K>(key: Record -> K, order: seq<K>)
    ensures GroupSums([], key, order) == 0
  {
    if order != [] {
      GroupSumsOfNothing(key, order[1..]);
    }
  }

  /** The present entries of a reindexed series add up to the group sums of its categories. */
  lemma {:induction false} PresentSumReindex<K>(rows: seq<Record>, key: Record -> K, order: seq<K>)
    ensures PresentSum(Reindex(rows, key, order)) == GroupSums(rows, key, order)
  {
    if order != [] {
      var r := Reindex(rows, key, order);
      assert r[1..] == Reindex(rows, key, order[1..]);
      if !Present(rows, key, order[0]) {
        GroupTotalAbsent(rows, key, order[0]);
      }
      PresentSumReindex(rows, key, order[1..]);
    }
  }

  /** Conservation of `groupby(key).sum().reindex(order)`: when the categories are
      distinct and every row's key is one of them, the present entries add up to
      the total count. */
  lemma ReindexConserves<K>(rows: seq<Record>, key: Record -> K, order: seq<K>)
    requires Distinct(order)
    requires forall x :: x in rows ==> key(x) in order
    ensures PresentSum(Reindex(rows, key, order)) == Total(rows)
  {
    PresentSumReindex(rows, key, order);
    GroupSumsPartition(rows, key, order);
  }
}
