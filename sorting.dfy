/**
 * `np.argsort` followed by fancy indexing, as used by the exact estimator:
 * the (value, weight) pairs reordered by value. The model sorts stably by
 * insertion; NumPy's default sort is not stable, but equal values carry the
 * same value, so only the order of their weights can differ.
 */
module Sorting {

  /** A (value, weight) sample. */
  type Pair = (real, real)

  predicate SortedByValue(s: seq<Pair>)
  {
    forall i, j :: 0 <= i < j < |s| ==> s[i].0 <= s[j].0
  }

  function Insert(x: Pair, s: seq<Pair>): (r: seq<Pair>)
    requires SortedByValue(s)
    ensures SortedByValue(r)
    ensures multiset(r) == multiset(s) + multiset{x}
    ensures |r| == |s| + 1
    ensures r[0] == x || (|s| > 0 && r[0] == s[0])
  {
    if s == [] then [x]
    else if x.0 <= s[0].0 then
      InsertFront(x, s);
      [x] + s
    else
      var rest := Insert(x, s[1..]);
      InsertBehind(x, s, rest);
      [s[0]] + rest
  }

  lemma InsertFront(x: Pair, s: seq<Pair>)
    requires SortedByValue(s) && s != [] && x.0 <= s[0].0
    ensures SortedByValue([x] + s)
    ensures multiset([x] + s) == multiset(s) + multiset{x}
  {
    var r := [x] + s;
    forall i, j | 0 <= i < j < |r| ensures r[i].0 <= r[j].0 {
      if i == 0 {
        assert r[j] == s[j - 1];
        assert s[0].0 <= s[j - 1].0 || j == 1;
      } else {
        assert r[i] == s[i - 1] && r[j] == s[j - 1];
      }
    }
  }

  /** Putting the head in front of the insertion into the tail keeps the order and the contents. */
  lemma InsertBehind(x: Pair, s: seq<Pair>, rest: seq<Pair>)
    requires SortedByValue(s) && s != [] && s[0].0 < x.0
    requires SortedByValue(rest) && multiset(rest) == multiset(s[1..]) + multiset{x}
    ensures SortedByValue([s[0]] + rest)
    ensures multiset([s[0]] + rest) == multiset(s) + multiset{x}
  {
    assert s == [s[0]] + s[1..];
    var r := [s[0]] + rest;
    forall i, j | 0 <= i < j < |r| ensures r[i].0 <= r[j].0 {
      assert r[j] == rest[j - 1];
      if i == 0 {
        assert rest[j - 1] in multiset(rest);
        if rest[j - 1] != x {
          assert rest[j - 1] in s[1..];
          var k :| 0 <= k < |s[1..]| && s[1..][k] == rest[j - 1];
          assert s[k + 1] == rest[j - 1];
        }
      } else {
        assert r[i] == rest[i - 1];
      }
    }
  }

  /** The pairs in nondecreasing order of value: a sorted permutation of the input. */
  function SortByValue(s: seq<Pair>): (r: seq<Pair>)
    ensures SortedByValue(r)
    ensures multiset(r) == multiset(s)
    ensures |r| == |s|
  {
    if s == [] then []
    else
      assert s == [s[0]] + s[1..];
      Insert(s[0], SortByValue(s[1..]))
  }

  /** `zip(data, weights)` over the first `|data|` weights. */
  function Zip(data: seq<real>, weights: seq<real>): (r: seq<Pair>)
    requires |weights| >= |data|
    ensures |r| == |data|
    ensures forall i :: 0 <= i < |data| ==> r[i] == (data[i], weights[i])
  {
    seq(|data|, i requires 0 <= i < |data| => (data[i], weights[i]))
  }

  function Values(s: seq<Pair>): (r: seq<real>)
    ensures |r| == |s| && forall i :: 0 <= i < |s| ==> r[i] == s[i].0
  {
    seq(|s|, i requires 0 <= i < |s| => s[i].0)
  }

  function Weights(s: seq<Pair>): (r: seq<real>)
    ensures |r| == |s| && forall i :: 0 <= i < |s| ==> r[i] == s[i].1
  {
    seq(|s|, i requires 0 <= i < |s| => s[i].1)
  }

  /** Every element of a permutation of a zip is one of the zipped pairs. */
  lemma PermutedZip(data: seq<real>, weights: seq<real>, s: seq<Pair>)
    requires |weights| >= |data|
    requires multiset(s) == multiset(Zip(data, weights))
    ensures |s| == |data|
    ensures forall m :: 0 <= m < |s| ==> exists i :: 0 <= i < |data| && s[m] == (data[i], weights[i])
    ensures forall i :: 0 <= i < |data| ==> exists m :: 0 <= m < |s| && s[m] == (data[i], weights[i])
  {
    var z := Zip(data, weights);
    assert |s| == |multiset(s)| == |z|;
    forall m | 0 <= m < |s|
      ensures exists i :: 0 <= i < |data| && s[m] == (data[i], weights[i])
    {
      assert s[m] in multiset(s);
      assert s[m] in z;
    }
    forall i | 0 <= i < |data|
      ensures exists m :: 0 <= m < |s| && s[m] == (data[i], weights[i])
    {
      assert z[i] in multiset(z);
      assert z[i] in s;
    }
  }
}
