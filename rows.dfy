/**
 * The measurement rows both percentile calculators read, and the pandas
 * mechanics they apply to each chunk: the validity mask, `groupby` on
 * (Script_Name, Transaction_Name) and column extraction. A chunk is a
 * sequence of rows; concatenating the chunks gives the whole query result.
 */
module Rows {

  /** A group key: (Script_Name, Transaction_Name), compared by exact string equality. */
  datatype Key = Key(script: string, transaction: string)

  /** One row of the transaction response-time query. */
  datatype Row = Row(script: string, transaction: string, responseTime: real, count: real)
  {
    function GroupKey(): Key { Key(script, transaction) }

    /** The mask `(Response_Times > 0) & (Counts > 0)`. */
    predicate IsValid() { responseTime > 0.0 && count > 0.0 }
  }

  /** A row of a percentile frame: Script_Name, Transaction_Name, p50, p90, p95, p99. */
  datatype PercentileRow = PercentileRow(key: Key, p50: real, p90: real, p95: real, p99: real)

  /** The per-key parallel arrays `times` and `weights`. */
  datatype Samples = Samples(times: seq<real>, weights: seq<real>)
  {
    function Size(): nat { |times| }
    function Append(other: Samples): Samples { Samples(times + other.times, weights + other.weights) }
  }

  function Flatten<T>(chunks: seq<seq<T>>): (r: seq<T>)
    ensures |chunks| == 0 ==> r == []
  {
    if chunks == [] then [] else chunks[0] + Flatten(chunks[1..])
  }

  lemma {:induction false} FlattenSnoc<T>(chunks: seq<seq<T>>, c: seq<T>)
    ensures Flatten(chunks + [c]) == Flatten(chunks) + c
  {
    if chunks == [] {
      assert chunks + [c] == [c];
    } else {
      assert (chunks + [c])[1..] == chunks[1..] + [c];
      FlattenSnoc(chunks[1..], c);
    }
  }

  /** One more chunk of a prefix adds its items at the end. */
  lemma FlattenPrefix<T>(chunks: seq<seq<T>>, i: nat)
    requires i < |chunks|
    ensures Flatten(chunks[..i + 1]) == Flatten(chunks[..i]) + chunks[i]
  {
    FlattenSnoc(chunks[..i], chunks[i]);
    assert chunks[..i + 1] == chunks[..i] + [chunks[i]];
  }

  /** `chunk[mask]`: the valid rows, in order. */
  function ValidRows(rows: seq<Row>): (r: seq<Row>)
    ensures |r| <= |rows|
    ensures forall x :: x in r <==> x in rows && x.IsValid()
  {
    if rows == [] then []
    else (if rows[0].IsValid() then [rows[0]] else []) + ValidRows(rows[1..])
  }

  lemma {:induction false} ValidRowsAppend(a: seq<Row>, b: seq<Row>)
    ensures ValidRows(a + b) == ValidRows(a) + ValidRows(b)
  {
    if a == [] {
      assert a + b == b;
    } else {
      assert (a + b)[1..] == a[1..] + b;
      ValidRowsAppend(a[1..], b);
    }
  }

  /** The rows of one group, in their original order (what `groupby` hands each group). */
  function RowsOf(rows: seq<Row>, k: Key): (r: seq<Row>)
    ensures |r| <= |rows|
  {
    if rows == [] then []
    else (if rows[0].GroupKey() == k then [rows[0]] else []) + RowsOf(rows[1..], k)
  }

  /** A group holds exactly the rows with its key, and is empty exactly when no row has it. */
  lemma {:induction false} RowsOfMembers(rows: seq<Row>, k: Key)
    ensures forall x :: x in RowsOf(rows, k) <==> x in rows && x.GroupKey() == k
    ensures RowsOf(rows, k) == [] <==> forall x :: x in rows ==> x.GroupKey() != k
  {
    if rows != [] {
      RowsOfMembers(rows[1..], k);
      assert rows == [rows[0]] + rows[1..];
    }
  }

  lemma {:induction false} RowsOfAppend(a: seq<Row>, b: seq<Row>, k: Key)
    ensures RowsOf(a + b, k) == RowsOf(a, k) + RowsOf(b, k)
  {
    if a == [] {
      assert a + b == b;
    } else {
      assert (a + b)[1..] == a[1..] + b;
      RowsOfAppend(a[1..], b, k);
    }
  }

  /** The group of a sequence ends with its last row when that row has the key. */
  lemma RowsOfLast(rows: seq<Row>, k: Key)
    requires rows != []
    ensures RowsOf(rows, k) == RowsOf(rows[..|rows| - 1], k) + (if rows[|rows| - 1].GroupKey() == k then [rows[|rows| - 1]] else [])
  {
    var n := |rows| - 1;
    assert rows == rows[..n] + [rows[n]];
    RowsOfAppend(rows[..n], [rows[n]], k);
    assert [rows[n]][1..] == [];
  }

  /** `group["Response_Times"]` and `group["Counts"]` as float arrays. */
  function Columns(rows: seq<Row>): (s: Samples)
    ensures |s.times| == |s.weights| == |rows|
    ensures forall i :: 0 <= i < |rows| ==> s.times[i] == rows[i].responseTime && s.weights[i] == rows[i].count
  {
    Samples(seq(|rows|, i requires 0 <= i < |rows| => rows[i].responseTime),
            seq(|rows|, i requires 0 <= i < |rows| => rows[i].count))
  }

  lemma ColumnsAppend(a: seq<Row>, b: seq<Row>)
    ensures Columns(a + b) == Columns(a).Append(Columns(b))
  {
  }

  /** The samples the rows contribute to key `k`: its valid rows' columns. */
  function SamplesOf(rows: seq<Row>, k: Key): Samples
  {
    Columns(RowsOf(ValidRows(rows), k))
  }

  /** Samples are contributed chunk by chunk: a concatenation of rows contributes the concatenation. */
  lemma SamplesOfAppend(a: seq<Row>, b: seq<Row>, k: Key)
    ensures SamplesOf(a + b, k) == SamplesOf(a, k).Append(SamplesOf(b, k))
  {
    ValidRowsAppend(a, b);
    RowsOfAppend(ValidRows(a), ValidRows(b), k);
    ColumnsAppend(RowsOf(ValidRows(a), k), RowsOf(ValidRows(b), k));
  }

  /** The keys of the valid rows. */
  function ValidKeys(rows: seq<Row>): set<Key>
  {
    set x | x in ValidRows(rows) :: x.GroupKey()
  }

  lemma ValidKeysAppend(a: seq<Row>, b: seq<Row>)
    ensures ValidKeys(a + b) == ValidKeys(a) + ValidKeys(b)
  {
    ValidRowsAppend(a, b);
  }

  /** A key has samples exactly when it is the key of some valid row. */
  lemma SamplesOfNonEmpty(rows: seq<Row>, k: Key)
    ensures SamplesOf(rows, k).Size() > 0 <==> k in ValidKeys(rows)
  {
    var g := RowsOf(ValidRows(rows), k);
    RowsOfMembers(ValidRows(rows), k);
    if k in ValidKeys(rows) {
      var x :| x in ValidRows(rows) && x.GroupKey() == k;
      assert x in g;
    }
  }

  /** Every sample that reaches a group comes from a valid row: value and weight are positive. */
  lemma SamplesPositive(rows: seq<Row>, k: Key)
    ensures forall i :: 0 <= i < SamplesOf(rows, k).Size() ==>
              SamplesOf(rows, k).times[i] > 0.0 && SamplesOf(rows, k).weights[i] > 0.0
  {
    var g := RowsOf(ValidRows(rows), k);
    RowsOfMembers(ValidRows(rows), k);
    forall i | 0 <= i < |g| ensures g[i].IsValid() {
      assert g[i] in g;
    }
  }

  predicate Distinct<T(==)>(s: seq<T>)
  {
    forall i, j :: 0 <= i < j < |s| ==> s[i] != s[j]
  }

  /** Without repeats, the head is not in the tail, and the tail has no repeats. */
  lemma DistinctTail<T>(s: seq<T>)
    requires s != [] && Distinct(s)
    ensures Distinct(s[1..]) && s[0] !in s[1..]
  {
    var tail := s[1..];
    forall i, j | 0 <= i < j < |tail| ensures tail[i] != tail[j] {
      assert tail[i] == s[i + 1] && tail[j] == s[j + 1];
    }
    forall j | 0 <= j < |tail| ensures tail[j] != s[0] {
      assert tail[j] == s[j + 1];
    }
  }

  /** Without repeats, the last item is not in the rest, and the rest has no repeats. */
  lemma DistinctInit<T>(s: seq<T>)
    requires s != [] && Distinct(s)
    ensures Distinct(s[..|s| - 1]) && s[|s| - 1] !in s[..|s| - 1]
  {
    var pre := s[..|s| - 1];
    forall i, j | 0 <= i < j < |pre| ensures pre[i] != pre[j] {
      assert pre[i] == s[i] && pre[j] == s[j];
    }
    forall i | 0 <= i < |pre| ensures pre[i] != s[|s| - 1] {
      assert pre[i] == s[i];
    }
  }

  /** Putting a new item, or nothing, before a sequence without repeats keeps it without repeats. */
  lemma DistinctCons<T>(head: seq<T>, rest: seq<T>)
    requires |head| <= 1 && Distinct(rest)
    requires forall x :: x in head ==> x !in rest
    ensures Distinct(head + rest)
  {
    var r := head + rest;
    forall i, j | 0 <= i < j < |r| ensures r[i] != r[j] {
      if head != [] && i == 0 {
        assert r[i] == head[0] && r[j] == rest[j - 1] && rest[j - 1] in rest;
      } else {
        assert r[i] == rest[i - |head|] && r[j] == rest[j - |head|];
      }
    }
  }

  /** The keys `groupby` visits: each key of the rows once, in order of first appearance. */
  function GroupKeys(rows: seq<Row>): (r: seq<Key>)
    ensures Distinct(r)
    ensures forall k :: k in r <==> exists x :: x in rows && x.GroupKey() == k
    decreases |rows|
  {
    if rows == [] then []
    else
      var prev := GroupKeys(rows[..|rows| - 1]);
      var last := rows[|rows| - 1];
      assert rows == rows[..|rows| - 1] + [last];
      if last.GroupKey() in prev then prev else prev + [last.GroupKey()]
  }

  /** A dictionary's key order: each key of the map exactly once. */
  ghost predicate Ordered<V>(order: seq<Key>, m: map<Key, V>)
  {
    Distinct(order) && forall k :: k in order <==> k in m
  }

  /** Assigning a key keeps the order; a new key goes last. */
  lemma OrderedStep<V>(order: seq<Key>, m: map<Key, V>, key: Key, v: V)
    requires Ordered(order, m)
    ensures key in m ==> Ordered(order, m[key := v])
    ensures key !in m ==> Ordered(order + [key], m[key := v])
  {
    if key !in m {
      var o := order + [key];
      forall i, j | 0 <= i < j < |o| ensures o[i] != o[j] {
        if j == |order| {
          assert o[i] in order;
        }
      }
    }
  }

  /** The keys of a sequence of percentile rows. */
  function RowKeys(rows: seq<PercentileRow>): (ks: seq<Key>)
    ensures |ks| == |rows| && forall i :: 0 <= i < |rows| ==> ks[i] == rows[i].key
  {
    seq(|rows|, i requires 0 <= i < |rows| => rows[i].key)
  }
}
