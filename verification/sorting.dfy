/**
  `sort_values(by=key, ascending=False, kind="mergesort")`: a stable sort on
  one numeric column, largest first. Modelled as an insertion sort, which
  orders equal keys the same way a stable merge sort does.
 */
module Sorting {
  import opened Collections

  /** Adjacent keys never increase. */
  predicate Descending<T>(s: seq<T>, key: T -> real)
    decreases |s|
  {
    |s| <= 1 || (key(s[0]) >= key(s[1]) && Descending(s[1..], key))
  }

  /** Every later key is at most every earlier one. */
  lemma {:induction false} DescendingAt<T>(s: seq<T>, key: T -> real, i: nat, j: nat)
    requires Descending(s, key) && i <= j < |s|
    ensures key(s[i]) >= key(s[j])
    decreases |s|
  {
    if i > 0 {
      DescendingAt(s[1..], key, i - 1, j - 1);
    } else if j > 0 {
      DescendingAt(s[1..], key, 0, j - 1);
    }
  }

  /** Places `x` before the first element whose key does not exceed its own. */
  function Insert<T>(x: T, s: seq<T>, key: T -> real): (r: seq<T>)
    ensures |r| == |s| + 1
    ensures multiset(r) == multiset(s) + multiset{x}
    ensures |r| > 0 && (r[0] == x || (|s| > 0 && r[0] == s[0]))
    decreases |s|
  {
    if |s| == 0 || key(s[0]) <= key(x) then [x] + s
    else
      assert s == [s[0]] + s[1..];
      [s[0]] + Insert(x, s[1..], key)
  }

  lemma {:induction false} InsertDescending<T>(x: T, s: seq<T>, key: T -> real)
    requires Descending(s, key)
    ensures Descending(Insert(x, s, key), key)
    decreases |s|
  {
    if |s| > 0 && key(s[0]) > key(x) {
      InsertDescending(x, s[1..], key);
      var t := Insert(x, s[1..], key);
      assert Insert(x, s, key)[1..] == t;
    }
  }

  /** The stable descending sort. */
  function Sort<T>(s: seq<T>, key: T -> real): (r: seq<T>)
    ensures |r| == |s|
    ensures multiset(r) == multiset(s)
    decreases |s|
  {
    if |s| == 0 then []
    else
      assert s == [s[0]] + s[1..];
      Insert(s[0], Sort(s[1..], key), key)
  }

  /** The sorted rows never increase in key. */
  lemma {:induction false} SortDescending<T>(s: seq<T>, key: T -> real)
    ensures Descending(Sort(s, key), key)
    decreases |s|
  {
    if |s| > 0 {
      SortDescending(s[1..], key);
      InsertDescending(s[0], Sort(s[1..], key), key);
    }
  }

  /** The rows whose key is `v`. */
  function KeyIs<T>(key: T -> real, v: real): T -> bool {
    x => key(x) == v
  }

  /** Inserting `x` puts it ahead of the rows with its own key... */
  lemma {:induction false} InsertStableSame<T>(x: T, s: seq<T>, key: T -> real)
    ensures Filter(Insert(x, s, key), KeyIs(key, key(x))) == [x] + Filter(s, KeyIs(key, key(x)))
    decreases |s|
  {
    var p := KeyIs(key, key(x));
    if |s| == 0 || key(s[0]) <= key(x) {
      FilterCons(x, s, p);
    } else {
      var t := Insert(x, s[1..], key);
      assert Filter(Insert(x, s, key), p) == Filter(t, p) by {
        FilterCons(s[0], t, p);
      }
      InsertStableSame(x, s[1..], key);
      assert Filter(s, p) == Filter(s[1..], p);
    }
  }

  /** ...and leaves the rows of every other key where they were. */
  lemma {:induction false} InsertStableOther<T>(x: T, s: seq<T>, key: T -> real, v: real)
    requires key(x) != v
    ensures Filter(Insert(x, s, key), KeyIs(key, v)) == Filter(s, KeyIs(key, v))
    decreases |s|
  {
    var p := KeyIs(key, v);
    if |s| == 0 || key(s[0]) <= key(x) {
      FilterCons(x, s, p);
    } else {
      var t := Insert(x, s[1..], key);
      assert Filter(Insert(x, s, key), p) == (if p(s[0]) then [s[0]] else []) + Filter(t, p) by {
        FilterCons(s[0], t, p);
      }
      InsertStableOther(x, s[1..], key, v);
    }
  }

  /** Stability: the rows of any one key come out in their input order. */
  lemma {:induction false} SortStable<T>(s: seq<T>, key: T -> real, v: real)
    ensures Filter(Sort(s, key), KeyIs(key, v)) == Filter(s, KeyIs(key, v))
    decreases |s|
  {
    if |s| > 0 {
      SortStable(s[1..], key, v);
      if key(s[0]) == v {
        InsertStableSame(s[0], Sort(s[1..], key), key);
      } else {
        InsertStableOther(s[0], Sort(s[1..], key), key, v);
      }
    }
  }

  /** Sorting input that is already in order changes nothing. */
  lemma {:induction false} SortSorted<T>(s: seq<T>, key: T -> real)
    requires Descending(s, key)
    ensures Sort(s, key) == s
    decreases |s|
  {
    if |s| > 0 {
      SortSorted(s[1..], key);
      if |s| > 1 {
        assert key(s[1]) <= key(s[0]);
      }
    }
  }
}
