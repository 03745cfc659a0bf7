/**
  Two idioms the scripts repeat: a dict filled by a loop whose later
  assignments overwrite earlier ones, and a list comprehension with a filter.
 */
module Collections {
  import opened Wrappers

  /** `d = {}; for x in xs: if <entry(x) yields (k, v)>: d[k] = v`. */
  function Collect<T, K(==), V>(xs: seq<T>, entry: T -> Option<(K, V)>): map<K, V>
    decreases |xs|
  {
    if |xs| == 0 then map[]
    else
      var d := Collect(xs[..|xs| - 1], entry);
      match entry(xs[|xs| - 1])
      case None => d
      case Some(kv) => d[kv.0 := kv.1]
  }

  /** `x` is an entry that assigns key `k`. */
  predicate Defines<T, K(==), V>(entry: T -> Option<(K, V)>, x: T, k: K) {
    entry(x).Some? && entry(x).value.0 == k
  }

  /** A key is in the dict exactly when some entry assigns it, and it holds the
      value of the LAST entry that does. */
  lemma CollectLastWins<T, K, V>(xs: seq<T>, entry: T -> Option<(K, V)>, k: K)
    ensures k in Collect(xs, entry) <==> exists i :: 0 <= i < |xs| && Defines(entry, xs[i], k)
    ensures k in Collect(xs, entry) ==>
      exists i :: 0 <= i < |xs| && Defines(entry, xs[i], k) && entry(xs[i]).value.1 == Collect(xs, entry)[k] &&
        forall j :: i < j < |xs| ==> !Defines(entry, xs[j], k)
  {
    CollectKeys(xs, entry, k);
    if k in Collect(xs, entry) {
      CollectLast(xs, entry, k);
    }
  }

  /** The key set of the dict, for every key at once. */
  lemma CollectDomain<T, K, V>(xs: seq<T>, entry: T -> Option<(K, V)>)
    ensures forall k :: k in Collect(xs, entry) <==> exists i :: 0 <= i < |xs| && Defines(entry, xs[i], k)
  {
    forall k
      ensures k in Collect(xs, entry) <==> exists i :: 0 <= i < |xs| && Defines(entry, xs[i], k)
    {
      CollectKeys(xs, entry, k);
    }
  }

  lemma {:induction false} CollectKeys<T, K, V>(xs: seq<T>, entry: T -> Option<(K, V)>, k: K)
    ensures k in Collect(xs, entry) <==> exists i :: 0 <= i < |xs| && Defines(entry, xs[i], k)
    decreases |xs|
  {
    if |xs| > 0 {
      var n := |xs| - 1;
      var pre := xs[..n];
      CollectKeys(pre, entry, k);
      if Defines(entry, xs[n], k) {
        assert k in Collect(xs, entry);
      } else if k in Collect(pre, entry) {
        var i :| 0 <= i < n && Defines(entry, pre[i], k);
        assert xs[i] == pre[i];
      } else {
        forall i | 0 <= i < |xs|
          ensures !Defines(entry, xs[i], k)
        {
          if i < n {
            assert xs[i] == pre[i];
          }
        }
      }
    }
  }

  lemma {:induction false} CollectLast<T, K, V>(xs: seq<T>, entry: T -> Option<(K, V)>, k: K)
    requires k in Collect(xs, entry)
    ensures exists i :: 0 <= i < |xs| && Defines(entry, xs[i], k) && entry(xs[i]).value.1 == Collect(xs, entry)[k] &&
                        forall j :: i < j < |xs| ==> !Defines(entry, xs[j], k)
    decreases |xs|
  {
    var n := |xs| - 1;
    var pre := xs[..n];
    if Defines(entry, xs[n], k) {
      assert Collect(xs, entry)[k] == entry(xs[n]).value.1;
    } else {
      CollectLast(pre, entry, k);
      var i :| 0 <= i < n && Defines(entry, pre[i], k) && entry(pre[i]).value.1 == Collect(pre, entry)[k] &&
        forall j :: i < j < n ==> !Defines(entry, pre[j], k);
      assert xs[i] == pre[i];
      forall j | i < j < |xs|
        ensures !Defines(entry, xs[j], k)
      {
        if j < n {
          assert xs[j] == pre[j];
        }
      }
    }
  }

  /** `[x for x in s if p(x)]`. */
  function Filter<T>(s: seq<T>, p: T -> bool): seq<T>
    decreases |s|
  {
    if |s| == 0 then [] else (if p(s[0]) then [s[0]] else []) + Filter(s[1..], p)
  }

  lemma {:induction false} FilterAppend<T>(a: seq<T>, b: seq<T>, p: T -> bool)
    ensures Filter(a + b, p) == Filter(a, p) + Filter(b, p)
    decreases |a|
  {
    if |a| > 0 {
      assert (a + b)[0] == a[0];
      assert (a + b)[1..] == a[1..] + b;
      FilterAppend(a[1..], b, p);
    } else {
      assert a + b == b;
    }
  }

  lemma FilterCons<T>(a: T, t: seq<T>, p: T -> bool)
    ensures Filter([a] + t, p) == (if p(a) then [a] else []) + Filter(t, p)
  {
    assert ([a] + t)[0] == a;
    assert ([a] + t)[1..] == t;
  }

  /** The filter keeps only elements of `s` that satisfy `p`. */
  lemma {:induction false} FilterSound<T>(s: seq<T>, p: T -> bool, x: T)
    requires x in Filter(s, p)
    ensures x in s && p(x)
    decreases |s|
  {
    if x != s[0] || !p(s[0]) {
      FilterSound(s[1..], p, x);
    }
  }

  /** Every element satisfying `p` survives the filter. */
  lemma {:induction false} FilterKeeps<T>(s: seq<T>, p: T -> bool, x: T)
    requires x in s && p(x)
    ensures x in Filter(s, p)
    decreases |s|
  {
    if s[0] != x {
      FilterKeeps(s[1..], p, x);
    }
  }
}
