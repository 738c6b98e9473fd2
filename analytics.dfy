/**
 * `LoadTestAnalyticsManager.run`: the summary frame (one row per script and
 * transaction, aggregated in SQL) left-merged with the percentile frame on
 * (Script_Name, Transaction_Name), then the four percentile columns
 * zero-filled where the merge found no match.
 */
module AnalyticsManager {
  import opened Wrappers
  import opened Rows

  /** The SQL aggregates of a summary row, carried through the merge untouched. */
  datatype Stats = Stats(transactionCount: int, minimum: Option<real>, average: Option<real>,
                         maximum: Option<real>, stdDeviation: real, pass: int, fail: int)

  /** A row of the summary frame. */
  datatype SummaryRow = SummaryRow(key: Key, stats: Stats)

  /** A row of the final frame: the summary columns, then p50, p90, p95, p99. */
  datatype FinalRow = FinalRow(key: Key, stats: Stats, p50: real, p90: real, p95: real, p99: real)

  /** What `run` raises: `merge` finds no `Script_Name` column in the percentile frame. */
  datatype MergeError = MissingMergeKey

  /** The percentile rows whose key equals `k`, in their order. */
  function Matches(pct: seq<PercentileRow>, k: Key): (r: seq<PercentileRow>)
    ensures forall x :: x in r <==> x in pct && x.key == k
    ensures r == [] <==> forall x :: x in pct ==> x.key != k
    ensures |r| <= |pct|
  {
    if pct == [] then []
    else (if pct[0].key == k then [pct[0]] else []) + Matches(pct[1..], k)
  }

  /** The first percentile row with key `k`, if any. */
  function Lookup(pct: seq<PercentileRow>, k: Key): (r: Option<PercentileRow>)
    ensures r.Some? <==> exists x :: x in pct && x.key == k
    ensures r.Some? ==> r.value in pct && r.value.key == k
  {
    if pct == [] then None
    else if pct[0].key == k then Some(pct[0])
    else Lookup(pct[1..], k)
  }

  /** A summary row joined with one percentile row. */
  function Joined(s: SummaryRow, p: PercentileRow): FinalRow
  {
    FinalRow(s.key, s.stats, p.p50, p.p90, p.p95, p.p99)
  }

  /** A summary row without a match, after `fillna(0.0)`. */
  function Unmatched(s: SummaryRow): FinalRow
  {
    FinalRow(s.key, s.stats, 0.0, 0.0, 0.0, 0.0)
  }

  /** The rows a left merge makes for one summary row: one per match, or one zero-filled row. */
  function MergeRow(s: SummaryRow, pct: seq<PercentileRow>): seq<FinalRow>
  {
    var m := Matches(pct, s.key);
    if m == [] then [Unmatched(s)]
    else seq(|m|, i requires 0 <= i < |m| => Joined(s, m[i]))
  }

  /** `df_summary.merge(df_percentiles, on=[...], how="left")` followed by the fill. */
  function LeftMerge(summary: seq<SummaryRow>, pct: seq<PercentileRow>): seq<FinalRow>
  {
    if summary == [] then []
    else MergeRow(summary[0], pct) + LeftMerge(summary[1..], pct)
  }

  /**
   * `run` as written: a percentile frame built from an empty list has no
   * columns at all, so the merge raises `KeyError` instead of zero-filling.
   */
  function RunAsWritten(summary: seq<SummaryRow>, pct: seq<PercentileRow>): (r: Result<seq<FinalRow>, MergeError>)
    ensures r.Err? <==> pct == []
    ensures r.Ok? ==> r.value == Run(summary, pct)
  {
    if pct == [] then Err(MissingMergeKey) else Ok(LeftMerge(summary, pct))
  }

  /** `run` as intended: the left merge with zero-fill, whether or not any percentile row exists. */
  function Run(summary: seq<SummaryRow>, pct: seq<PercentileRow>): seq<FinalRow>
  {
    LeftMerge(summary, pct)
  }

  /** A summary row whose key has exactly one percentile row (or none) gives exactly one final row. */
  lemma MergeRowSingle(s: SummaryRow, pct: seq<PercentileRow>)
    requires Distinct(RowKeys(pct))
    ensures MergeRow(s, pct) == [if Lookup(pct, s.key).Some? then Joined(s, Lookup(pct, s.key).value) else Unmatched(s)]
  {
    var m := Matches(pct, s.key);
    if m != [] {
      MatchesUnique(pct, s.key);
      LookupInMatches(pct, s.key);
    }
  }

  lemma {:induction false} MatchesUnique(pct: seq<PercentileRow>, k: Key)
    requires Distinct(RowKeys(pct))
    ensures |Matches(pct, k)| <= 1
  {
    if pct != [] {
      assert Distinct(RowKeys(pct[1..])) by {
        forall i, j | 0 <= i < j < |pct| - 1 ensures RowKeys(pct[1..])[i] != RowKeys(pct[1..])[j] {
          assert RowKeys(pct)[i + 1] != RowKeys(pct)[j + 1];
        }
      }
      MatchesUnique(pct[1..], k);
      if pct[0].key == k {
        forall x | x in pct[1..] ensures x.key != k {
          var j :| 0 <= j < |pct[1..]| && pct[1..][j] == x;
          assert RowKeys(pct)[0] != RowKeys(pct)[j + 1];
        }
        assert Matches(pct[1..], k) == [];
      }
    }
  }

  lemma {:induction false} LookupInMatches(pct: seq<PercentileRow>, k: Key)
    ensures Matches(pct, k) != [] ==> Lookup(pct, k) == Some(Matches(pct, k)[0])
  {
    if pct != [] {
      var rest := Matches(pct[1..], k);
      if pct[0].key == k {
        assert Matches(pct, k) == [pct[0]] + rest;
      } else {
        assert Matches(pct, k) == [] + rest;
        assert [] + rest == rest;
        LookupInMatches(pct[1..], k);
      }
    }
  }

  /**
   * With unique percentile keys (they are dictionary keys upstream) the
   * merge keeps the summary: one final row per summary row, in summary
   * order, with the summary's key and aggregates, and the percentiles of
   * the row with the same key, or zeros when there is none.
   */
  lemma {:induction false} MergeKeepsSummary(summary: seq<SummaryRow>, pct: seq<PercentileRow>)
    requires Distinct(RowKeys(pct))
    ensures |Run(summary, pct)| == |summary|
    ensures forall i :: 0 <= i < |summary| ==>
              Run(summary, pct)[i] == if Lookup(pct, summary[i].key).Some? then Joined(summary[i], Lookup(pct, summary[i].key).value)
                                      else Unmatched(summary[i])
  {
    if summary != [] {
      MergeRowSingle(summary[0], pct);
      MergeKeepsSummary(summary[1..], pct);
    }
  }

  /**
   * Whatever the percentile frame, every final row carries the key and
   * aggregates of some summary row, and its percentiles are those of a
   * percentile row with that key, or zeros: percentile rows for keys the
   * summary lacks are dropped.
   */
  lemma {:induction false} MergeRowsFromSummary(summary: seq<SummaryRow>, pct: seq<PercentileRow>)
    ensures forall r :: r in Run(summary, pct) ==>
              (exists s :: s in summary && r.key == s.key && r.stats == s.stats) &&
              ((exists p :: p in pct && p.key == r.key && r == FinalRow(r.key, r.stats, p.p50, p.p90, p.p95, p.p99)) ||
               (r.p50 == 0.0 && r.p90 == 0.0 && r.p95 == 0.0 && r.p99 == 0.0))
    ensures |Run(summary, pct)| >= |summary|
  {
    if summary != [] {
      var s := summary[0];
      MergeRowsFromSummary(summary[1..], pct);
      var m := Matches(pct, s.key);
      forall r | r in MergeRow(s, pct)
        ensures r.key == s.key && r.stats == s.stats
        ensures (exists p :: p in pct && p.key == r.key && r == FinalRow(r.key, r.stats, p.p50, p.p90, p.p95, p.p99)) ||
                (r.p50 == 0.0 && r.p90 == 0.0 && r.p95 == 0.0 && r.p99 == 0.0)
      {
        if m != [] {
          var i :| 0 <= i < |m| && MergeRow(s, pct)[i] == r;
          assert m[i] in m;
        }
      }
    }
  }

  /**
   * The discrepancy: with no percentile rows at all (every transaction
   * failed, say) `run` raises, where the zero-filled merge keeps every
   * summary row.
   */
  lemma EmptyPercentilesRaise(summary: seq<SummaryRow>)
    ensures RunAsWritten(summary, []).Err?
    ensures |Run(summary, [])| == |summary|
    ensures forall i :: 0 <= i < |summary| ==> Run(summary, [])[i] == Unmatched(summary[i])
  {
    assert Distinct(RowKeys([]));
    MergeKeepsSummary(summary, []);
  }
}
