/**
  The left merge the report builder applies twice: every left row is kept,
  paired with each right row whose key equals its own (in right-table order),
  or with nothing when there is none. A left row with several matches is
  repeated once per match, as a pandas left merge does.
 */
module Join {
  import opened Wrappers

  /** The right rows whose key is `k`, in order. */
  function Matches<R, K(==)>(right: seq<R>, rk: R -> K, k: K): (ms: seq<R>)
    ensures |ms| <= |right|
    ensures forall i :: 0 <= i < |ms| ==> rk(ms[i]) == k
    ensures |ms| == 0 <==> forall j :: 0 <= j < |right| ==> rk(right[j]) != k
    decreases |right|
  {
    if |right| == 0 then []
    else
      var rest := Matches(right[1..], rk, k);
      assert forall j :: 0 < j < |right| ==> right[j] == right[1..][j - 1];
      if rk(right[0]) == k then [right[0]] + rest else rest
  }

  /** A right row with key `k` is among the matches of `k`. */
  lemma {:induction false} MatchesComplete<R, K>(right: seq<R>, rk: R -> K, k: K, j: nat)
    requires j < |right| && rk(right[j]) == k
    ensures right[j] in Matches(right, rk, k)
    decreases |right|
  {
    if j > 0 {
      MatchesComplete(right[1..], rk, k, j - 1);
    }
  }

  /** The output rows of one left row: one per match, or one unmatched. */
  function Expand<L, R>(l: L, ms: seq<R>): (e: seq<(L, Option<R>)>)
    ensures |ms| == 0 ==> e == [(l, None)]
    ensures |ms| > 0 ==> |e| == |ms|
    ensures forall i :: 0 <= i < |e| ==> e[i].0 == l
    ensures forall i :: 0 <= i < |ms| ==> e[i].1 == Some(ms[i])
  {
    if |ms| == 0 then [(l, None)] else seq(|ms|, i requires 0 <= i < |ms| => (l, Some(ms[i])))
  }

  /** `left.merge(right, on=key, how="left")`: at least one row per left row. */
  function LeftJoin<L, R, K(==)>(left: seq<L>, right: seq<R>, lk: L -> K, rk: R -> K): (j: seq<(L, Option<R>)>)
    ensures |j| >= |left|
    decreases |left|
  {
    if |left| == 0 then []
    else Expand(left[0], Matches(right, rk, lk(left[0]))) + LeftJoin(left[1..], right, lk, rk)
  }

  /** Every output row is a left row paired with nothing, when no right row
      shares its key, or with a right row that does. */
  lemma {:induction false} JoinRowsMatch<L, R, K>(left: seq<L>, right: seq<R>, lk: L -> K, rk: R -> K, i: nat)
    requires i < |LeftJoin(left, right, lk, rk)|
    ensures LeftJoin(left, right, lk, rk)[i].1.None? ==>
      forall j :: 0 <= j < |right| ==> rk(right[j]) != lk(LeftJoin(left, right, lk, rk)[i].0)
    ensures LeftJoin(left, right, lk, rk)[i].1.Some? ==>
      rk(LeftJoin(left, right, lk, rk)[i].1.value) == lk(LeftJoin(left, right, lk, rk)[i].0)
    decreases |left|
  {
    var ms := Matches(right, rk, lk(left[0]));
    var e := Expand(left[0], ms);
    if i >= |e| {
      JoinRowsMatch(left[1..], right, lk, rk, i - |e|);
    }
  }

  /** Every output row starts with one of the left rows. */
  lemma {:induction false} JoinRowOrigin<L, R, K>(left: seq<L>, right: seq<R>, lk: L -> K, rk: R -> K, i: nat)
    requires i < |LeftJoin(left, right, lk, rk)|
    ensures exists k :: 0 <= k < |left| && left[k] == LeftJoin(left, right, lk, rk)[i].0
    decreases |left|
  {
    var e := Expand(left[0], Matches(right, rk, lk(left[0])));
    if i >= |e| {
      JoinRowOrigin(left[1..], right, lk, rk, i - |e|);
      var k :| 0 <= k < |left[1..]| && left[1..][k] == LeftJoin(left[1..], right, lk, rk)[i - |e|].0;
      assert left[k + 1] == LeftJoin(left, right, lk, rk)[i].0;
    } else {
      assert left[0] == LeftJoin(left, right, lk, rk)[i].0;
    }
  }

  /** A matched right row of a merge is one of the right table's rows. */
  lemma {:induction false} JoinRowSource<L, R, K>(left: seq<L>, right: seq<R>, lk: L -> K, rk: R -> K, i: nat)
    requires i < |LeftJoin(left, right, lk, rk)| && LeftJoin(left, right, lk, rk)[i].1.Some?
    ensures LeftJoin(left, right, lk, rk)[i].1.value in right
    decreases |left|
  {
    var ms := Matches(right, rk, lk(left[0]));
    var e := Expand(left[0], ms);
    if i >= |e| {
      JoinRowSource(left[1..], right, lk, rk, i - |e|);
    } else {
      assert e[i].1 == Some(ms[i]);
      MatchesIn(right, rk, lk(left[0]), i);
    }
  }

  lemma {:induction false} MatchesIn<R, K>(right: seq<R>, rk: R -> K, k: K, i: nat)
    requires i < |Matches(right, rk, k)|
    ensures Matches(right, rk, k)[i] in right
    decreases |right|
  {
    var rest := Matches(right[1..], rk, k);
    if rk(right[0]) == k {
      if i > 0 {
        MatchesIn(right[1..], rk, k, i - 1);
      }
    } else {
      MatchesIn(right[1..], rk, k, i);
    }
  }

  /** No left row is dropped: each appears paired with each of its matches,
      or unmatched when it has none. */
  lemma {:induction false} JoinKeepsLeft<L, R, K>(left: seq<L>, right: seq<R>, lk: L -> K, rk: R -> K, i: nat)
    requires i < |left|
    ensures |LeftJoin(left, right, lk, rk)| >= |left|
    ensures Matches(right, rk, lk(left[i])) == [] ==> (left[i], None) in LeftJoin(left, right, lk, rk)
    ensures forall r :: r in Matches(right, rk, lk(left[i])) ==> (left[i], Some(r)) in LeftJoin(left, right, lk, rk)
    decreases |left|
  {
    var ms := Matches(right, rk, lk(left[0]));
    var e := Expand(left[0], ms);
    var rest := LeftJoin(left[1..], right, lk, rk);
    assert LeftJoin(left, right, lk, rk) == e + rest;
    if i == 0 {
      if |left| > 1 {
        JoinKeepsLeft(left[1..], right, lk, rk, 0);
      }
      if ms == [] {
        assert e[0] == (left[0], None);
      }
      forall r | r in ms
        ensures (left[0], Some(r)) in e + rest
      {
        var k :| 0 <= k < |ms| && ms[k] == r;
        assert e[k] == (left[0], Some(r));
      }
    } else {
      JoinKeepsLeft(left[1..], right, lk, rk, i - 1);
      assert left[1..][i - 1] == left[i];
    }
  }

  /** The right table has at most one row per key (pandas then keeps the
      left table's row count). */
  predicate UniqueKeys<R, K(==)>(right: seq<R>, rk: R -> K) {
    forall i, j :: 0 <= i < j < |right| ==> rk(right[i]) != rk(right[j])
  }

  /** The single match of `k`, if any. */
  function Lookup<R, K(==)>(right: seq<R>, rk: R -> K, k: K): Option<R> {
    var ms := Matches(right, rk, k);
    if |ms| == 0 then None else Some(ms[0])
  }

  lemma {:induction false} UniqueMatches<R, K>(right: seq<R>, rk: R -> K, k: K)
    requires UniqueKeys(right, rk)
    ensures |Matches(right, rk, k)| <= 1
    decreases |right|
  {
    if |right| > 0 {
      assert UniqueKeys(right[1..], rk) by {
        forall i, j | 0 <= i < j < |right[1..]|
          ensures rk(right[1..][i]) != rk(right[1..][j])
        {
          assert right[1..][i] == right[i + 1] && right[1..][j] == right[j + 1];
        }
      }
      UniqueMatches(right[1..], rk, k);
      if rk(right[0]) == k {
        forall j | 0 <= j < |right[1..]|
          ensures rk(right[1..][j]) != k
        {
          assert right[1..][j] == right[j + 1];
        }
      }
    }
  }

  /** With unique right keys the merge is one row per left row, in order,
      each paired with the right row of its key when there is one. */
  lemma {:induction false} UniqueJoin<L, R, K>(left: seq<L>, right: seq<R>, lk: L -> K, rk: R -> K)
    requires UniqueKeys(right, rk)
    ensures |LeftJoin(left, right, lk, rk)| == |left|
    ensures forall i :: 0 <= i < |left| ==>
      LeftJoin(left, right, lk, rk)[i] == (left[i], Lookup(right, rk, lk(left[i])))
    decreases |left|
  {
    if |left| > 0 {
      UniqueMatches(right, rk, lk(left[0]));
      UniqueJoin(left[1..], right, lk, rk);
      var e := Expand(left[0], Matches(right, rk, lk(left[0])));
      assert |e| == 1 && e[0] == (left[0], Lookup(right, rk, lk(left[0])));
      forall i | 1 <= i < |left|
        ensures LeftJoin(left, right, lk, rk)[i] == (left[i], Lookup(right, rk, lk(left[i])))
      {
        assert left[1..][i - 1] == left[i];
      }
    }
  }
}
