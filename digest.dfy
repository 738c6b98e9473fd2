/**
 * The digest strategy of `percentile_calculator.py`: the same filtered,
 * grouped chunk stream as the exact strategy, but every key feeds a lazily
 * created t-digest, by `batch_update` when the digest has one and by
 * per-row `update` otherwise. An `AttributeError`/`TypeError` in the grouped
 * pass makes the whole (filtered) chunk be replayed row by row.
 *
 * The t-digest library is foreign. A digest is modelled by the log of the
 * weighted updates it received, in order, and its quantile estimate is an
 * oracle over that log whose `None` stands for NaN. Where the grouped pass
 * raises is a parameter: for each chunk, an optional `Fault` naming the
 * group that raises and how many of its updates were applied before.
 */
module DigestCalculator {
  import opened Wrappers
  import opened Rows
  import opened Sorting

  /** One weighted update `(value, weight)` received by a digest. */
  type Update = Pair

  /** The quantile estimate of a digest with the given update log; `None` is NaN. */
  type Oracle = (seq<Update>, real) -> Option<real>

  /** Where the grouped pass of a chunk raises: in group `group`, after `applied` of its updates. */
  datatype Fault = Fault(group: nat, applied: nat)

  /** The value of `method_used`. */
  datatype MethodUsed = Vectorized | Iterative | Fallback

  /** The updates the rows make, one per row, in row order. */
  function Pairs(rows: seq<Row>): (r: seq<Update>)
    ensures |r| == |rows|
    ensures forall i :: 0 <= i < |rows| ==> r[i] == (rows[i].responseTime, rows[i].count)
  {
    seq(|rows|, i requires 0 <= i < |rows| => (rows[i].responseTime, rows[i].count))
  }

  lemma PairsAppend(a: seq<Row>, b: seq<Row>)
    ensures Pairs(a + b) == Pairs(a) + Pairs(b)
  {
  }

  /** `zip(rt_values, counts)` of a group is the group's updates. */
  lemma ZipColumns(rows: seq<Row>)
    ensures Zip(Columns(rows).times, Columns(rows).weights) == Pairs(rows)
  {
  }

  /** The update log of `k` in a map of logs (empty when `k` has no digest). */
  function Log(logs: map<Key, seq<Update>>, k: Key): seq<Update>
  {
    if k in logs then logs[k] else []
  }

  /** `k` gets a digest if it has none, then receives `us`. */
  function Extend(logs: map<Key, seq<Update>>, k: Key, us: seq<Update>): map<Key, seq<Update>>
  {
    logs[k := Log(logs, k) + us]
  }

  /** Extending `k` creates its digest and appends to its log, and leaves every other key alone. */
  lemma ExtendAt(logs: map<Key, seq<Update>>, k: Key, us: seq<Update>, x: Key)
    ensures x in Extend(logs, k, us) <==> x in logs || x == k
    ensures Log(Extend(logs, k, us), x) == if x == k then Log(logs, k) + us else Log(logs, x)
  {
  }

  lemma ExtendTwice(logs: map<Key, seq<Update>>, k: Key, a: seq<Update>, b: seq<Update>)
    ensures Extend(Extend(logs, k, a), k, b) == Extend(logs, k, a + b)
  {
    assert Log(logs, k) + a + b == Log(logs, k) + (a + b);
  }

  /** The grouped pass over the groups `keys` of the filtered chunk `valid`, each group fed whole. */
  function GroupedPass(logs: map<Key, seq<Update>>, valid: seq<Row>, keys: seq<Key>): map<Key, seq<Update>>
    decreases |keys|
  {
    if keys == [] then logs
    else
      var n := |keys| - 1;
      Extend(GroupedPass(logs, valid, keys[..n]), keys[n], Pairs(RowsOf(valid, keys[n])))
  }

  /** The fallback: every row updates its own key's digest, in row order. */
  function Replay(logs: map<Key, seq<Update>>, rows: seq<Row>): map<Key, seq<Update>>
    decreases |rows|
  {
    if rows == [] then logs
    else
      var n := |rows| - 1;
      Extend(Replay(logs, rows[..n]), rows[n].GroupKey(), [(rows[n].responseTime, rows[n].count)])
  }

  /** Replaying one more row extends that row's key by its one update. */
  lemma ReplayStep(logs: map<Key, seq<Update>>, rows: seq<Row>, i: nat)
    requires i < |rows|
    ensures Replay(logs, rows[..i + 1])
            == Extend(Replay(logs, rows[..i]), rows[i].GroupKey(), [(rows[i].responseTime, rows[i].count)])
  {
    assert rows[..i + 1][..i] == rows[..i];
  }

  /** Whether the chunk's grouped pass raises: only a fault inside the chunk's groups can. */
  predicate Raises(chunk: seq<Row>, fault: Option<Fault>)
  {
    fault.Some? && fault.value.group < |GroupKeys(ValidRows(chunk))|
  }

  /** How many of the raising group's updates the grouped pass applied. */
  function Applied(chunk: seq<Row>, fault: Option<Fault>): nat
    requires Raises(chunk, fault)
  {
    var valid := ValidRows(chunk);
    var n := |RowsOf(valid, GroupKeys(valid)[fault.value.group])|;
    if fault.value.applied < n then fault.value.applied else n
  }

  /** The digests when the grouped pass of the chunk raises: finished groups, then the raising group's prefix. */
  function Raised(logs: map<Key, seq<Update>>, chunk: seq<Row>, fault: Option<Fault>): map<Key, seq<Update>>
    requires Raises(chunk, fault)
  {
    var valid := ValidRows(chunk);
    var keys := GroupKeys(valid);
    var g := fault.value.group;
    Extend(GroupedPass(logs, valid, keys[..g]), keys[g], Pairs(RowsOf(valid, keys[g]))[..Applied(chunk, fault)])
  }

  /** The digests after one chunk of the loop. */
  function ChunkStep(logs: map<Key, seq<Update>>, chunk: seq<Row>, fault: Option<Fault>): map<Key, seq<Update>>
  {
    var valid := ValidRows(chunk);
    if valid == [] then logs
    else if Raises(chunk, fault) then Replay(Raised(logs, chunk, fault), valid)
    else GroupedPass(logs, valid, GroupKeys(valid))
  }

  /** The digests after the whole chunk loop; `faults(i)` is where chunk `i` raises, if it does. */
  function DigestLogs(chunks: seq<seq<Row>>, faults: nat -> Option<Fault>): map<Key, seq<Update>>
    decreases |chunks|
  {
    if chunks == [] then map[]
    else
      var n := |chunks| - 1;
      ChunkStep(DigestLogs(chunks[..n], faults), chunks[n], faults(n))
  }

  /** `method_used` after one chunk. */
  function ChunkMethod(m: MethodUsed, chunk: seq<Row>, fault: Option<Fault>, hasBatchUpdate: bool): MethodUsed
  {
    if ValidRows(chunk) == [] then m
    else if Raises(chunk, fault) then Fallback
    else if !hasBatchUpdate then Iterative
    else m
  }

  /** `method_used` after the whole chunk loop. */
  function MethodOf(chunks: seq<seq<Row>>, faults: nat -> Option<Fault>, hasBatchUpdate: bool): MethodUsed
    decreases |chunks|
  {
    if chunks == [] then Vectorized
    else
      var n := |chunks| - 1;
      ChunkMethod(MethodOf(chunks[..n], faults, hasBatchUpdate), chunks[n], faults(n), hasBatchUpdate)
  }

  /** No chunk's grouped pass raises. */
  predicate NoFaults(chunks: seq<seq<Row>>, faults: nat -> Option<Fault>)
  {
    forall i :: 0 <= i < |chunks| ==> faults(i).None?
  }

  /** `p if not pd.isna(p) and p > 0 else 0.0` */
  function Sanitise(p: Option<real>): (r: real)
    ensures r >= 0.0
    ensures r == 0.0 || (p.Some? && r == p.value)
    ensures p.Some? && p.value > 0.0 ==> r == p.value
  {
    if p.Some? && p.value > 0.0 then p.value else 0.0
  }

  /** The result row `_build_results` makes for a digest with the given update log. */
  function DigestRow(k: Key, log: seq<Update>, oracle: Oracle): (r: PercentileRow)
    ensures r.key == k
    ensures r.p50 >= 0.0 && r.p90 >= 0.0 && r.p95 >= 0.0 && r.p99 >= 0.0
  {
    PercentileRow(k, Sanitise(oracle(log, 50.0)), Sanitise(oracle(log, 90.0)),
                  Sanitise(oracle(log, 95.0)), Sanitise(oracle(log, 99.0)))
  }

  // ---------------------------------------------------------------------
  // What each pass puts in one key's digest.
  // ---------------------------------------------------------------------

  lemma {:induction false} GroupedPassAt(logs: map<Key, seq<Update>>, valid: seq<Row>, keys: seq<Key>, k: Key)
    requires Distinct(keys)
    ensures k in GroupedPass(logs, valid, keys) <==> k in logs || k in keys
    ensures Log(GroupedPass(logs, valid, keys), k) == Log(logs, k) + (if k in keys then Pairs(RowsOf(valid, k)) else [])
    decreases |keys|
  {
    if keys != [] {
      var n := |keys| - 1;
      var pre := keys[..n];
      DistinctInit(keys);
      assert keys == pre + [keys[n]];
      GroupedPassAt(logs, valid, pre, k);
      ExtendAt(GroupedPass(logs, valid, pre), keys[n], Pairs(RowsOf(valid, keys[n])), k);
      if k == keys[n] {
        assert k !in pre;
      } else {
        assert Log(logs, k) + [] == Log(logs, k);
      }
    }
  }

  lemma {:induction false} ReplayKeys(logs: map<Key, seq<Update>>, rows: seq<Row>, k: Key)
    ensures k in Replay(logs, rows) <==> k in logs || RowsOf(rows, k) != []
    decreases |rows|
  {
    if rows != [] {
      var n := |rows| - 1;
      var last := rows[n];
      ReplayKeys(logs, rows[..n], k);
      ExtendAt(Replay(logs, rows[..n]), last.GroupKey(), [(last.responseTime, last.count)], k);
      RowsOfLast(rows, k);
    }
  }

  lemma {:induction false} ReplayAt(logs: map<Key, seq<Update>>, rows: seq<Row>, k: Key)
    ensures Log(Replay(logs, rows), k) == Log(logs, k) + Pairs(RowsOf(rows, k))
    decreases |rows|
  {
    if rows == [] {
      assert Log(logs, k) + [] == Log(logs, k);
    } else {
      var n := |rows| - 1;
      var last := rows[n];
      var u := [(last.responseTime, last.count)];
      ReplayAt(logs, rows[..n], k);
      ExtendAt(Replay(logs, rows[..n]), last.GroupKey(), u, k);
      RowsOfLast(rows, k);
      var a := RowsOf(rows[..n], k);
      if last.GroupKey() != k {
        assert RowsOf(rows, k) == a + [];
        assert a + [] == a;
      } else {
        assert RowsOf(rows, k) == a + [last];
        PairsAppend(a, [last]);
        assert Pairs([last]) == u;
        assert Log(logs, k) + Pairs(a) + u == Log(logs, k) + (Pairs(a) + u);
      }
    }
  }

  lemma PartialPassAt(logs: map<Key, seq<Update>>, valid: seq<Row>, keys: seq<Key>, g: nat, pre: seq<Update>, k: Key)
    requires Distinct(keys) && g < |keys|
    ensures k in Extend(GroupedPass(logs, valid, keys[..g]), keys[g], pre) <==> k in logs || k in keys[..g + 1]
    ensures Log(Extend(GroupedPass(logs, valid, keys[..g]), keys[g], pre), k) ==
            Log(logs, k) + (if k in keys[..g] then Pairs(RowsOf(valid, k)) else if k == keys[g] then pre else [])
  {
    assert keys[..g + 1] == keys[..g] + [keys[g]];
    assert Distinct(keys[..g]);
    assert keys[g] !in keys[..g];
    GroupedPassAt(logs, valid, keys[..g], k);
    ExtendAt(GroupedPass(logs, valid, keys[..g]), keys[g], pre, k);
  }

  /** What the grouped pass left in one key's digest before it raised. */
  lemma RaisedAt(logs: map<Key, seq<Update>>, chunk: seq<Row>, fault: Option<Fault>, k: Key)
    requires Raises(chunk, fault)
    ensures var keys := GroupKeys(ValidRows(chunk));
            var g := fault.value.group;
            && (k in Raised(logs, chunk, fault) <==> k in logs || k in keys[..g + 1])
            && Log(Raised(logs, chunk, fault), k) ==
               Log(logs, k) + (if k in keys[..g] then Pairs(RowsOf(ValidRows(chunk), k))
                               else if k == keys[g] then Pairs(RowsOf(ValidRows(chunk), k))[..Applied(chunk, fault)]
                               else [])
  {
    var valid := ValidRows(chunk);
    var keys := GroupKeys(valid);
    var g := fault.value.group;
    PartialPassAt(logs, valid, keys, g, Pairs(RowsOf(valid, keys[g]))[..Applied(chunk, fault)], k);
  }

  /** The keys of the filtered chunk, and those only, get a digest. */
  lemma ChunkStepKeys(logs: map<Key, seq<Update>>, chunk: seq<Row>, fault: Option<Fault>, k: Key)
    ensures k in ChunkStep(logs, chunk, fault) <==> k in logs || k in ValidKeys(chunk)
  {
    var valid := ValidRows(chunk);
    var keys := GroupKeys(valid);
    assert k in ValidKeys(chunk) <==> k in keys;
    if valid == [] {
    } else if Raises(chunk, fault) {
      ReplayKeys(Raised(logs, chunk, fault), valid, k);
      RowsOfMembers(valid, k);
      assert RowsOf(valid, k) != [] <==> k in keys;
      RaisedAt(logs, chunk, fault, k);
      if k in keys[..fault.value.group + 1] {
        assert k in keys;
      }
    } else {
      GroupedPassAt(logs, valid, keys, k);
    }
  }

  /**
   * On the normal path every valid row of the chunk is applied exactly once,
   * to its own key's digest, in row order.
   */
  lemma ChunkStepNormal(logs: map<Key, seq<Update>>, chunk: seq<Row>, fault: Option<Fault>, k: Key)
    requires !Raises(chunk, fault)
    ensures Log(ChunkStep(logs, chunk, fault), k) == Log(logs, k) + Pairs(RowsOf(ValidRows(chunk), k))
  {
    var valid := ValidRows(chunk);
    if valid == [] {
      assert Log(logs, k) + [] == Log(logs, k);
    } else {
      var keys := GroupKeys(valid);
      GroupedPassAt(logs, valid, keys, k);
      if k !in keys {
        RowsOfMembers(valid, k);
        assert RowsOf(valid, k) == [];
      }
    }
  }

  /**
   * When the grouped pass raises, every valid row of the chunk is applied
   * again by the fallback, after whatever prefix of its group's updates the
   * grouped pass had already applied.
   */
  lemma ChunkStepFallback(logs: map<Key, seq<Update>>, chunk: seq<Row>, fault: Option<Fault>, k: Key)
    requires Raises(chunk, fault)
    ensures var p := Pairs(RowsOf(ValidRows(chunk), k));
            exists n :: 0 <= n <= |p| && Log(ChunkStep(logs, chunk, fault), k) == Log(logs, k) + p[..n] + p
  {
    var valid := ValidRows(chunk);
    var keys := GroupKeys(valid);
    var g := fault.value.group;
    var q := Pairs(RowsOf(valid, k));
    ReplayAt(Raised(logs, chunk, fault), valid, k);
    RaisedAt(logs, chunk, fault, k);
    var n := if k in keys[..g] then |q| else if k == keys[g] then Applied(chunk, fault) else 0;
    assert k in keys[..g] ==> q[..n] == q;
    assert k !in keys[..g] && k != keys[g] ==> q[..n] == [];
    assert Log(ChunkStep(logs, chunk, fault), k) == Log(logs, k) + q[..n] + q;
  }

  /**
   * The replay is not undone: a group the grouped pass had finished before
   * the fault receives its rows twice.
   */
  lemma ChunkStepDoubleCounts(logs: map<Key, seq<Update>>, chunk: seq<Row>, fault: Option<Fault>, i: nat)
    requires Raises(chunk, fault) && i < fault.value.group
    ensures var k := GroupKeys(ValidRows(chunk))[i];
            var p := Pairs(RowsOf(ValidRows(chunk), k));
            Log(ChunkStep(logs, chunk, fault), k) == Log(logs, k) + p + p
  {
    var valid := ValidRows(chunk);
    var keys := GroupKeys(valid);
    var k := keys[i];
    assert k in keys[..fault.value.group];
    ReplayAt(Raised(logs, chunk, fault), valid, k);
    RaisedAt(logs, chunk, fault, k);
  }

  // ---------------------------------------------------------------------
  // The whole chunk loop.
  // ---------------------------------------------------------------------

  /** A digest exists for exactly the keys that have at least one valid row. */
  lemma {:induction false} DigestKeys(chunks: seq<seq<Row>>, faults: nat -> Option<Fault>, k: Key)
    ensures k in DigestLogs(chunks, faults) <==> k in ValidKeys(Flatten(chunks))
    decreases |chunks|
  {
    if chunks == [] {
      assert k !in ValidKeys([]);
    } else {
      var n := |chunks| - 1;
      assert chunks == chunks[..n] + [chunks[n]];
      FlattenSnoc(chunks[..n], chunks[n]);
      ValidKeysAppend(Flatten(chunks[..n]), chunks[n]);
      DigestKeys(chunks[..n], faults, k);
      ChunkStepKeys(DigestLogs(chunks[..n], faults), chunks[n], faults(n), k);
    }
  }

  /**
   * Without faults, a key's digest received exactly its valid rows, once
   * each and in row order, whatever the chunk boundaries: the same values
   * and weights the exact strategy accumulates for that key.
   */
  lemma {:induction false} DigestLogNoFaults(chunks: seq<seq<Row>>, faults: nat -> Option<Fault>, k: Key)
    requires NoFaults(chunks, faults)
    ensures Log(DigestLogs(chunks, faults), k) == Pairs(RowsOf(ValidRows(Flatten(chunks)), k))
    ensures Values(Log(DigestLogs(chunks, faults), k)) == SamplesOf(Flatten(chunks), k).times
    ensures Weights(Log(DigestLogs(chunks, faults), k)) == SamplesOf(Flatten(chunks), k).weights
    decreases |chunks|
  {
    if chunks != [] {
      var n := |chunks| - 1;
      var before := Flatten(chunks[..n]);
      assert chunks == chunks[..n] + [chunks[n]];
      assert NoFaults(chunks[..n], faults) by {
        forall i | 0 <= i < n ensures faults(i).None? {
          assert faults(i) == faults(i);
        }
      }
      assert faults(n).None?;
      DigestLogNoFaults(chunks[..n], faults, k);
      ChunkStepNormal(DigestLogs(chunks[..n], faults), chunks[n], faults(n), k);
      FlattenSnoc(chunks[..n], chunks[n]);
      ValidRowsAppend(before, chunks[n]);
      RowsOfAppend(ValidRows(before), ValidRows(chunks[n]), k);
      PairsAppend(RowsOf(ValidRows(before), k), RowsOf(ValidRows(chunks[n]), k));
    }
  }

  /** The updates of a key's valid rows have a positive value and weight. */
  lemma ValidPairsPositive(rows: seq<Row>, k: Key)
    ensures forall u :: u in Pairs(RowsOf(ValidRows(rows), k)) ==> u.0 > 0.0 && u.1 > 0.0
  {
    var g := RowsOf(ValidRows(rows), k);
    RowsOfMembers(ValidRows(rows), k);
    forall u | u in Pairs(g) ensures u.0 > 0.0 && u.1 > 0.0 {
      var i :| 0 <= i < |g| && Pairs(g)[i] == u;
      assert g[i] in g;
    }
  }

  /**
   * Invalid rows never reach a digest: every update a key's digest received
   * is the update of one of that key's valid rows, so its value and weight
   * are positive.
   */
  /** What a chunk adds to a key's log comes from the chunk's valid rows of that key. */
  lemma ChunkStepFrom(prev: map<Key, seq<Update>>, chunk: seq<Row>, fault: Option<Fault>, k: Key)
    ensures forall u :: u in Log(ChunkStep(prev, chunk, fault), k) ==>
              u in Log(prev, k) || u in Pairs(RowsOf(ValidRows(chunk), k))
  {
    var q := Pairs(RowsOf(ValidRows(chunk), k));
    if Raises(chunk, fault) {
      ChunkStepFallback(prev, chunk, fault, k);
      var m :| 0 <= m <= |q| && Log(ChunkStep(prev, chunk, fault), k) == Log(prev, k) + q[..m] + q;
      forall u | u in q[..m] ensures u in q {
        var i :| 0 <= i < m && q[..m][i] == u;
        assert q[i] == u;
      }
    } else {
      ChunkStepNormal(prev, chunk, fault, k);
    }
  }

  lemma {:induction false} DigestUpdatesValid(chunks: seq<seq<Row>>, faults: nat -> Option<Fault>, k: Key)
    ensures forall u :: u in Log(DigestLogs(chunks, faults), k) ==> u in Pairs(RowsOf(ValidRows(Flatten(chunks)), k))
    ensures forall u :: u in Log(DigestLogs(chunks, faults), k) ==> u.0 > 0.0 && u.1 > 0.0
    decreases |chunks|
  {
    var all := Pairs(RowsOf(ValidRows(Flatten(chunks)), k));
    ValidPairsPositive(Flatten(chunks), k);
    if chunks != [] {
      var n := |chunks| - 1;
      var before := Flatten(chunks[..n]);
      var chunk := chunks[n];
      var prev := DigestLogs(chunks[..n], faults);
      assert chunks == chunks[..n] + [chunk];
      FlattenSnoc(chunks[..n], chunk);
      assert Flatten(chunks) == before + chunk;
      DigestUpdatesValid(chunks[..n], faults, k);
      ValidRowsAppend(before, chunk);
      RowsOfAppend(ValidRows(before), ValidRows(chunk), k);
      PairsAppend(RowsOf(ValidRows(before), k), RowsOf(ValidRows(chunk), k));
      var p := Pairs(RowsOf(ValidRows(before), k));
      var q := Pairs(RowsOf(ValidRows(chunk), k));
      assert all == p + q;
      ChunkStepFrom(prev, chunk, faults(n), k);
      forall u | u in Log(DigestLogs(chunks, faults), k) ensures u in all {
        if u in Log(prev, k) {
          assert u in p;
        }
      }
    } else {
      assert Log(DigestLogs(chunks, faults), k) == [];
    }
  }

  /** Without faults `method_used` never becomes "fallback", and stays "vectorized" when digests have `batch_update`. */
  lemma {:induction false} MethodWithoutFaults(chunks: seq<seq<Row>>, faults: nat -> Option<Fault>, hasBatchUpdate: bool)
    requires NoFaults(chunks, faults)
    ensures MethodOf(chunks, faults, hasBatchUpdate) != Fallback
    ensures hasBatchUpdate ==> MethodOf(chunks, faults, hasBatchUpdate) == Vectorized
    decreases |chunks|
  {
    if chunks != [] {
      var n := |chunks| - 1;
      assert NoFaults(chunks[..n], faults) by {
        forall i | 0 <= i < n ensures faults(i).None? {
          assert faults(i) == faults(i);
        }
      }
      MethodWithoutFaults(chunks[..n], faults, hasBatchUpdate);
    }
  }

  // ---------------------------------------------------------------------
  // The calculator.
  // ---------------------------------------------------------------------

  /** A t-digest, seen through the weighted updates it has received. */
  class TDigest {
    var updates: seq<Update>

    constructor ()
      ensures updates == []
    {
      updates := [];
    }

    /** `update(x, w)` */
    method Update(x: real, w: real)
      modifies this
      ensures updates == old(updates) + [(x, w)]
    {
      updates := updates + [(x, w)];
    }

    /** `batch_update(values, weights)`: each pair, in order. */
    method BatchUpdate(values: seq<real>, weights: seq<real>)
      requires |values| == |weights|
      modifies this
      ensures updates == old(updates) + Zip(values, weights)
    {
      updates := updates + Zip(values, weights);
    }

    /** `percentile(q)`; `None` is NaN. */
    function Percentile(oracle: Oracle, q: real): Option<real>
      reads this
    {
      oracle(updates, q)
    }
  }

  /** Distinct keys own distinct digests. */
  ghost predicate Injective(digests: map<Key, TDigest>)
  {
    forall k1, k2 :: k1 in digests && k2 in digests && k1 != k2 ==> digests[k1] != digests[k2]
  }

  /** The update log of every digest in the dictionary. */
  ghost function Logs(digests: map<Key, TDigest>): map<Key, seq<Update>>
    reads digests.Values
  {
    map k | k in digests :: digests[k].updates
  }

  /** Adding a digest under a new key adds its log under that key and keeps every other log. */
  lemma LogsAdd(digests: map<Key, TDigest>, key: Key, d: TDigest)
    requires key !in digests
    ensures Logs(digests[key := d]) == Logs(digests)[key := d.updates]
  {
  }

  /** `if key not in digests: digests[key] = TDigest()` */
  method Touch(digests: map<Key, TDigest>, order: seq<Key>, key: Key) returns (ds: map<Key, TDigest>, ord: seq<Key>)
    requires Injective(digests) && Ordered(order, digests)
    ensures Injective(ds) && Ordered(ord, ds)
    ensures key in ds && forall k :: k in ds <==> k in digests || k == key
    ensures forall k :: k in digests ==> ds[k] == digests[k]
    ensures key !in digests ==> fresh(ds[key])
    ensures Logs(ds) == Extend(Logs(digests), key, [])
  {
    if key in digests {
      ds, ord := digests, order;
      assert Log(Logs(digests), key) + [] == Logs(digests)[key];
    } else {
      var d := new TDigest();
      ds, ord := digests[key := d], order + [key];
      OrderedStep(order, digests, key, d);
      LogsAdd(digests, key, d);
      assert Log(Logs(digests), key) + [] == d.updates;
    }
  }

  /** The body of the grouped pass for one group whose digest exists: `batch_update`, or `update` per row. */
  method Feed(digests: map<Key, TDigest>, key: Key, values: seq<real>, weights: seq<real>, hasBatchUpdate: bool)
    returns (iterative: bool)
    requires Injective(digests) && key in digests && |values| == |weights|
    modifies digests[key]
    ensures Logs(digests) == Extend(old(Logs(digests)), key, Zip(values, weights))
    ensures iterative == !hasBatchUpdate
  {
    var d := digests[key];
    if hasBatchUpdate {
      d.BatchUpdate(values, weights);
      iterative := false;
    } else {
      iterative := true;
      ghost var initial := d.updates;
      var i := 0;
      while i < |values|
        invariant 0 <= i <= |values|
        invariant d.updates == initial + Zip(values[..i], weights[..i])
      {
        d.Update(values[i], weights[i]);
        assert Zip(values[..i + 1], weights[..i + 1]) == Zip(values[..i], weights[..i]) + [(values[i], weights[i])];
        i := i + 1;
      }
      assert values[..i] == values && weights[..i] == weights;
    }
  }

  /** `digests[key].update(rt, count)` in the fallback. */
  method UpdateKey(digests: map<Key, TDigest>, key: Key, x: real, w: real)
    requires Injective(digests) && key in digests
    modifies digests[key]
    ensures Logs(digests) == Extend(old(Logs(digests)), key, [(x, w)])
  {
    digests[key].Update(x, w);
  }

  /** One group of the grouped pass: create the key's digest if needed, then feed it `updates`. */
  method FeedGroup(digests0: map<Key, TDigest>, order0: seq<Key>, key: Key, rows: seq<Row>, hasBatchUpdate: bool)
    returns (digests: map<Key, TDigest>, order: seq<Key>, iterative: bool)
    requires Injective(digests0) && Ordered(order0, digests0)
    modifies digests0.Values
    ensures Injective(digests) && Ordered(order, digests)
    ensures forall k :: k in digests ==> digests[k] in digests0.Values || fresh(digests[k])
    ensures Logs(digests) == Extend(old(Logs(digests0)), key, Pairs(rows))
    ensures iterative == !hasBatchUpdate
  {
    ghost var start := Logs(digests0);
    digests, order := Touch(digests0, order0, key);
    var group := Columns(rows);
    iterative := Feed(digests, key, group.times, group.weights, hasBatchUpdate);
    ZipColumns(rows);
    ExtendTwice(start, key, [], Pairs(rows));
    assert [] + Pairs(rows) == Pairs(rows);
  }

  /** One row of the fallback: create the row's digest if needed, then `update` it with the row. */
  method ReplayRow(digests0: map<Key, TDigest>, order0: seq<Key>, row: Row)
    returns (digests: map<Key, TDigest>, order: seq<Key>)
    requires Injective(digests0) && Ordered(order0, digests0)
    modifies digests0.Values
    ensures Injective(digests) && Ordered(order, digests)
    ensures forall k :: k in digests ==> digests[k] in digests0.Values || fresh(digests[k])
    ensures Logs(digests) == Extend(old(Logs(digests0)), row.GroupKey(), [(row.responseTime, row.count)])
  {
    ghost var start := Logs(digests0);
    digests, order := Touch(digests0, order0, row.GroupKey());
    UpdateKey(digests, row.GroupKey(), row.responseTime, row.count);
    ExtendTwice(start, row.GroupKey(), [], [(row.responseTime, row.count)]);
    assert [] + [(row.responseTime, row.count)] == [(row.responseTime, row.count)];
  }

  /** The grouped pass over the first `stop` groups, each fed whole to its (lazily created) digest. */
  method GroupedLoop(digests0: map<Key, TDigest>, order0: seq<Key>, valid: seq<Row>, keys: seq<Key>, stop: nat,
                     hasBatchUpdate: bool, method0: MethodUsed)
    returns (digests: map<Key, TDigest>, order: seq<Key>, methodUsed: MethodUsed)
    requires Injective(digests0) && Ordered(order0, digests0) && stop <= |keys|
    modifies digests0.Values
    ensures Injective(digests) && Ordered(order, digests)
    ensures forall k :: k in digests ==> digests[k] in digests0.Values || fresh(digests[k])
    ensures Logs(digests) == GroupedPass(old(Logs(digests0)), valid, keys[..stop])
    ensures methodUsed == if stop > 0 && !hasBatchUpdate then Iterative else method0
  {
    digests, order, methodUsed := digests0, order0, method0;
    ghost var start := Logs(digests0);
    var j := 0;
    while j < stop
      invariant 0 <= j <= stop
      invariant Injective(digests) && Ordered(order, digests)
      invariant forall k :: k in digests ==> digests[k] in digests0.Values || fresh(digests[k])
      invariant Logs(digests) == GroupedPass(start, valid, keys[..j])
      invariant methodUsed == if j > 0 && !hasBatchUpdate then Iterative else method0
    {
      var iterative;
      digests, order, iterative := FeedGroup(digests, order, keys[j], RowsOf(valid, keys[j]), hasBatchUpdate);
      if iterative {
        methodUsed := Iterative;
      }
      assert keys[..j + 1][..j] == keys[..j];
      j := j + 1;
    }
  }

  /** The fallback: `update` every row's own digest, creating it if needed, in row order. */
  method ReplayLoop(digests0: map<Key, TDigest>, order0: seq<Key>, rows: seq<Row>)
    returns (digests: map<Key, TDigest>, order: seq<Key>)
    requires Injective(digests0) && Ordered(order0, digests0)
    modifies digests0.Values
    ensures Injective(digests) && Ordered(order, digests)
    ensures forall k :: k in digests ==> digests[k] in digests0.Values || fresh(digests[k])
    ensures Logs(digests) == Replay(old(Logs(digests0)), rows)
  {
    digests, order := digests0, order0;
    ghost var start := Logs(digests0);
    var i := 0;
    while i < |rows|
      invariant 0 <= i <= |rows|
      invariant Injective(digests) && Ordered(order, digests)
      invariant forall k :: k in digests ==> digests[k] in digests0.Values || fresh(digests[k])
      invariant Logs(digests) == Replay(start, rows[..i])
    {
      ReplayStep(start, rows, i);
      digests, order := ReplayRow(digests, order, rows[i]);
      i := i + 1;
    }
    assert rows[..i] == rows;
  }

  /** The grouped pass of a chunk that raises: the groups before the fault whole, then part of the raising group. */
  method RaisingPass(digests0: map<Key, TDigest>, order0: seq<Key>, chunk: seq<Row>, fault: Option<Fault>,
                     hasBatchUpdate: bool)
    returns (digests: map<Key, TDigest>, order: seq<Key>)
    requires Injective(digests0) && Ordered(order0, digests0) && Raises(chunk, fault)
    modifies digests0.Values
    ensures Injective(digests) && Ordered(order, digests)
    ensures forall k :: k in digests ==> digests[k] in digests0.Values || fresh(digests[k])
    ensures Logs(digests) == Raised(old(Logs(digests0)), chunk, fault)
  {
    var valid := ValidRows(chunk);
    var keys := GroupKeys(valid);
    var g := fault.value.group;
    var methodUsed;
    digests, order, methodUsed := GroupedLoop(digests0, order0, valid, keys, g, hasBatchUpdate, Vectorized);
    var group := RowsOf(valid, keys[g]);
    var n := Applied(chunk, fault);
    var iterative;
    digests, order, iterative := FeedGroup(digests, order, keys[g], group[..n], hasBatchUpdate);
    assert Pairs(group[..n]) == Pairs(group)[..n];
  }

  /**
   * One chunk of `_compute_percentiles`: filter, then the grouped pass, and
   * when it raises, the row-by-row replay of the whole filtered chunk.
   */
  method ProcessChunk(digests0: map<Key, TDigest>, order0: seq<Key>, chunk: seq<Row>, fault: Option<Fault>,
                      hasBatchUpdate: bool, method0: MethodUsed)
    returns (digests: map<Key, TDigest>, order: seq<Key>, methodUsed: MethodUsed)
    requires Injective(digests0) && Ordered(order0, digests0)
    modifies digests0.Values
    ensures Injective(digests) && Ordered(order, digests)
    ensures forall k :: k in digests ==> digests[k] in digests0.Values || fresh(digests[k])
    ensures Logs(digests) == ChunkStep(old(Logs(digests0)), chunk, fault)
    ensures methodUsed == ChunkMethod(method0, chunk, fault, hasBatchUpdate)
  {
    digests, order, methodUsed := digests0, order0, method0;
    var valid := ValidRows(chunk);
    if valid == [] {
      return;
    }
    if !Raises(chunk, fault) {
      var keys := GroupKeys(valid);
      digests, order, methodUsed := GroupedLoop(digests, order, valid, keys, |keys|, hasBatchUpdate, method0);
      assert keys[..|keys|] == keys;
    } else {
      digests, order := RaisingPass(digests, order, chunk, fault, hasBatchUpdate);
      methodUsed := Fallback;
      digests, order := ReplayLoop(digests, order, valid);
    }
  }

  /** The stream specification after one more chunk. */
  lemma DigestLogsStep(chunks: seq<seq<Row>>, i: nat, faults: nat -> Option<Fault>, hasBatchUpdate: bool)
    requires i < |chunks|
    ensures DigestLogs(chunks[..i + 1], faults) == ChunkStep(DigestLogs(chunks[..i], faults), chunks[i], faults(i))
    ensures MethodOf(chunks[..i + 1], faults, hasBatchUpdate)
         == ChunkMethod(MethodOf(chunks[..i], faults, hasBatchUpdate), chunks[i], faults(i), hasBatchUpdate)
  {
    assert chunks[..i + 1][..i] == chunks[..i];
  }

  /** The chunk loop of `_compute_percentiles`, with its `total_processed` and `method_used` bookkeeping. */
  method AccumulateDigests(chunks: seq<seq<Row>>, faults: nat -> Option<Fault>, hasBatchUpdate: bool)
    returns (digests: map<Key, TDigest>, order: seq<Key>, totalProcessed: nat, methodUsed: MethodUsed)
    ensures Injective(digests) && Ordered(order, digests)
    ensures forall k :: k in digests ==> fresh(digests[k])
    ensures Logs(digests) == DigestLogs(chunks, faults)
    ensures totalProcessed == |Flatten(chunks)|
    ensures methodUsed == MethodOf(chunks, faults, hasBatchUpdate)
  {
    digests, order, totalProcessed, methodUsed := map[], [], 0, Vectorized;
    var i := 0;
    while i < |chunks|
      invariant 0 <= i <= |chunks|
      invariant Injective(digests) && Ordered(order, digests)
      invariant forall v :: v in digests.Values ==> fresh(v)
      invariant Logs(digests) == DigestLogs(chunks[..i], faults)
      invariant totalProcessed == |Flatten(chunks[..i])|
      invariant methodUsed == MethodOf(chunks[..i], faults, hasBatchUpdate)
    {
      DigestLogsStep(chunks, i, faults, hasBatchUpdate);
      FlattenPrefix(chunks, i);
      totalProcessed := totalProcessed + |chunks[i]|;
      ghost var logs := Logs(digests);
      digests, order, methodUsed := ProcessChunk(digests, order, chunks[i], faults(i), hasBatchUpdate, methodUsed);
      assert Logs(digests) == ChunkStep(logs, chunks[i], faults(i));
      i := i + 1;
    }
    assert chunks[..i] == chunks;
    forall k | k in digests
      ensures fresh(digests[k])
    {
      assert digests[k] in digests.Values;
    }
  }

  /** `_build_results`: one row per digest, in dictionary order, each quantile sanitised. */
  method BuildResults(digests: map<Key, TDigest>, order: seq<Key>, oracle: Oracle) returns (results: seq<PercentileRow>)
    requires Ordered(order, digests)
    ensures RowKeys(results) == order
    ensures forall i :: 0 <= i < |results| ==> results[i] == DigestRow(order[i], digests[order[i]].updates, oracle)
  {
    results := [];
    var i := 0;
    while i < |order|
      invariant 0 <= i <= |order|
      invariant |results| == i
      invariant forall j :: 0 <= j < i ==> results[j] == DigestRow(order[j], digests[order[j]].updates, oracle)
    {
      var key := order[i];
      var d := digests[key];
      var p50, p90, p95, p99 := d.Percentile(oracle, 50.0), d.Percentile(oracle, 90.0),
                                d.Percentile(oracle, 95.0), d.Percentile(oracle, 99.0);
      results := results + [PercentileRow(key, Sanitise(p50), Sanitise(p90), Sanitise(p95), Sanitise(p99))];
      i := i + 1;
    }
    assert RowKeys(results) == order;
  }

  /**
   * `compute_percentiles`: run `_compute_percentiles` over the chunks the
   * query yields and re-raise whatever it raises. `streamError` is the error
   * the query raises after yielding `chunks`, if it does; then no result is
   * returned. Otherwise there is exactly one row per key with a valid row,
   * single-row groups included, built from that key's digest.
   */
  method ComputePercentiles(chunks: seq<seq<Row>>, streamError: Option<string>, faults: nat -> Option<Fault>,
                            hasBatchUpdate: bool, oracle: Oracle)
    returns (r: Result<seq<PercentileRow>, string>)
    ensures streamError.Some? ==> r == Err(streamError.value)
    ensures streamError.None? ==> r.Ok?
    ensures r.Ok? ==> Distinct(RowKeys(r.value))
    ensures r.Ok? ==> forall k :: k in RowKeys(r.value) <==> k in ValidKeys(Flatten(chunks))
    ensures r.Ok? ==> forall row :: row in r.value ==>
              row == DigestRow(row.key, Log(DigestLogs(chunks, faults), row.key), oracle)
    ensures r.Ok? ==> forall row :: row in r.value ==> row.p50 >= 0.0 && row.p90 >= 0.0 && row.p95 >= 0.0 && row.p99 >= 0.0
  {
    var digests, order, totalProcessed, methodUsed := AccumulateDigests(chunks, faults, hasBatchUpdate);
    if streamError.Some? {
      return Err(streamError.value);
    }
    var rows := BuildResults(digests, order, oracle);
    forall k ensures k in RowKeys(rows) <==> k in ValidKeys(Flatten(chunks)) {
      DigestKeys(chunks, faults, k);
    }
    forall row | row in rows ensures row == DigestRow(row.key, Log(DigestLogs(chunks, faults), row.key), oracle) {
      var i :| 0 <= i < |rows| && rows[i] == row;
      assert order[i] == row.key;
    }
    r := Ok(rows);
  }
}
