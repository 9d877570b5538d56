/** The left merge of two tables on a key (`merge(..., how='left')`): every left row,
    in order, is paired with each right row whose key equals its own, in right-table
    order, or with nothing when there is none. */
module Joins {
  import opened Common

  /** The right rows whose key is `k`, in order. */
  function Matches<R, K(==)>(right: seq<R>, key: R -> K, k: K): (r: seq<R>)
    ensures |r| <= |right|
  {
    if right == [] then []
    else if key(right[0]) == k then [right[0]] + Matches(right[1..], key, k)
    else Matches(right[1..], key, k)
  }

  /** The output rows contributed by one left row `l` whose matches are `ms`. */
  function RowsFor<L, R>(l: L, ms: seq<R>): (r: seq<(L, Option<R>)>)
    ensures |r| == if ms == [] then 1 else |ms|
    ensures forall i :: 0 <= i < |r| ==> r[i].0 == l
    ensures ms == [] ==> r == [(l, None)]
    ensures forall i :: 0 <= i < |ms| ==> r[i].1 == Some(ms[i])
  {
    if ms == [] then [(l, None)]
    else seq(|ms|, i requires 0 <= i < |ms| => (l, Some(ms[i])))
  }

  function LeftMerge<L, R, K(==)>(left: seq<L>, right: seq<R>, lkey: L -> K, rkey: R -> K): seq<(L, Option<R>)>
  {
    if left == [] then []
    else RowsFor(left[0], Matches(right, rkey, lkey(left[0]))) + LeftMerge(left[1..], right, lkey, rkey)
  }

  /** At most one right row has key `k`. */
  ghost predicate KeyAtMostOnce<R, K>(right: seq<R>, key: R -> K, k: K)
  {
    forall i, j :: 0 <= i < j < |right| && key(right[i]) == k ==> key(right[j]) != k
  }

  /** The number of output rows the left merge would give: each left row contributes
      one row per match, or one row when nothing matches. */
  function MergedSize<L, R, K(==)>(left: seq<L>, right: seq<R>, lkey: L -> K, rkey: R -> K): nat
  {
    if left == [] then 0
    else
      var n := |Matches(right, rkey, lkey(left[0]))|;
      (if n == 0 then 1 else n) + MergedSize(left[1..], right, lkey, rkey)
  }

  /** The matches of `k` are exactly the right rows with key `k`, every copy of each,
      in right-table order. */
  lemma MatchesSpec<R, K>(right: seq<R>, key: R -> K, k: K, x: R)
    ensures IsSubsequence(Matches(right, key, k), right)
    ensures multiset(Matches(right, key, k))[x] == if key(x) == k then multiset(right)[x] else 0
    ensures forall i :: 0 <= i < |Matches(right, key, k)| ==> key(Matches(right, key, k)[i]) == k
  {
    MatchesOrder(right, key, k);
    MatchesCount(right, key, k, x);
    MatchesKeys(right, key, k);
  }

  lemma {:induction false} MatchesOrder<R, K>(right: seq<R>, key: R -> K, k: K)
    ensures IsSubsequence(Matches(right, key, k), right)
  {
    if right != [] {
      MatchesOrder(right[1..], key, k);
    }
  }

  lemma {:induction false} MatchesCount<R, K>(right: seq<R>, key: R -> K, k: K, x: R)
    ensures multiset(Matches(right, key, k))[x] == if key(x) == k then multiset(right)[x] else 0
  {
    if right != [] {
      MatchesCount(right[1..], key, k, x);
      assert right == [right[0]] + right[1..];
    }
  }

  lemma {:induction false} MatchesKeys<R, K>(right: seq<R>, key: R -> K, k: K)
    ensures forall i :: 0 <= i < |Matches(right, key, k)| ==> key(Matches(right, key, k)[i]) == k
  {
    if right != [] {
      MatchesKeys(right[1..], key, k);
    }
  }

  /** When at most one right row has key `k` there is at most one match, and it is
      the right row with that key. */
  lemma {:induction false} MatchesUnique<R, K>(right: seq<R>, key: R -> K, k: K)
    requires KeyAtMostOnce(right, key, k)
    ensures |Matches(right, key, k)| <= 1
    ensures Matches(right, key, k) == [] <==> forall j :: 0 <= j < |right| ==> key(right[j]) != k
    ensures forall j :: 0 <= j < |right| && key(right[j]) == k ==> Matches(right, key, k) == [right[j]]
  {
    if right != [] {
      var rest := right[1..];
      assert KeyAtMostOnce(rest, key, k) by {
        forall i, j | 0 <= i < j < |rest| && key(rest[i]) == k ensures key(rest[j]) != k {
          assert rest[i] == right[i + 1] && rest[j] == right[j + 1];
        }
      }
      MatchesUnique(rest, key, k);
      if key(right[0]) == k {
        forall j | 0 <= j < |rest| ensures key(rest[j]) != k {
          assert rest[j] == right[j + 1];
        }
        assert Matches(right, key, k) == [right[0]];
      } else {
        forall j | 0 <= j < |right| && key(right[j]) == k ensures Matches(right, key, k) == [right[j]] {
          assert j > 0 && right[j] == rest[j - 1];
        }
      }
    }
  }

  /** The merge emits, for each left row, one row per match, or one row when
      nothing matches: a left row is repeated once per duplicate right key. */
  lemma {:induction false} MergeSizeIsExact<L, R, K>(left: seq<L>, right: seq<R>, lkey: L -> K, rkey: R -> K)
    ensures |LeftMerge(left, right, lkey, rkey)| == MergedSize(left, right, lkey, rkey)
  {
    if left != [] {
      MergeSizeIsExact(left[1..], right, lkey, rkey);
    }
  }

  /** A left merge never loses a left row. */
  lemma {:induction false} MergedAtLeastLeft<L, R, K>(left: seq<L>, right: seq<R>, lkey: L -> K, rkey: R -> K)
    ensures |LeftMerge(left, right, lkey, rkey)| >= |left|
  {
    if left != [] {
      MergedAtLeastLeft(left[1..], right, lkey, rkey);
    }
  }

  /** Every left row appears in the merge, and every merged row carries a left row. */
  lemma {:induction false} MergeKeepsLeft<L, R, K>(left: seq<L>, right: seq<R>, lkey: L -> K, rkey: R -> K)
    ensures forall k :: 0 <= k < |left| ==>
      exists i :: 0 <= i < |LeftMerge(left, right, lkey, rkey)| && LeftMerge(left, right, lkey, rkey)[i].0 == left[k]
    ensures forall i :: 0 <= i < |LeftMerge(left, right, lkey, rkey)| ==> LeftMerge(left, right, lkey, rkey)[i].0 in left
  {
    if left != [] {
      var h := RowsFor(left[0], Matches(right, rkey, lkey(left[0])));
      var t := LeftMerge(left[1..], right, lkey, rkey);
      var m := LeftMerge(left, right, lkey, rkey);
      assert m == h + t;
      MergeKeepsLeft(left[1..], right, lkey, rkey);
      forall k | 0 <= k < |left| ensures exists i :: 0 <= i < |m| && m[i].0 == left[k] {
        if k == 0 {
          assert m[0].0 == left[0];
        } else {
          assert left[k] == left[1..][k - 1];
          var i' :| 0 <= i' < |t| && t[i'].0 == left[1..][k - 1];
          assert m[|h| + i'] == t[i'];
        }
      }
      forall i | 0 <= i < |m| ensures m[i].0 in left {
        if i >= |h| {
          assert m[i] == t[i - |h|];
          assert t[i - |h|].0 in left[1..];
        }
      }
    }
  }

  /** The merge of two consecutive blocks of left rows is the concatenation of
      their merges: left-table order is kept. */
  lemma {:induction false} MergeAppend<L, R, K>(a: seq<L>, b: seq<L>, right: seq<R>, lkey: L -> K, rkey: R -> K)
    ensures LeftMerge(a + b, right, lkey, rkey) == LeftMerge(a, right, lkey, rkey) + LeftMerge(b, right, lkey, rkey)
  {
    if a == [] {
      assert a + b == b;
    } else {
      assert (a + b)[0] == a[0] && (a + b)[1..] == a[1..] + b;
      MergeAppend(a[1..], b, right, lkey, rkey);
      var head := RowsFor(a[0], Matches(right, rkey, lkey(a[0])));
      calc {
        LeftMerge(a + b, right, lkey, rkey);
        head + LeftMerge(a[1..] + b, right, lkey, rkey);
        head + (LeftMerge(a[1..], right, lkey, rkey) + LeftMerge(b, right, lkey, rkey));
        (head + LeftMerge(a[1..], right, lkey, rkey)) + LeftMerge(b, right, lkey, rkey);
      }
    }
  }

  /** When no left key occurs twice among the right keys, the merge keeps exactly
      one row per left row, in left-table order; a left row is paired with the right
      row carrying its key when there is one and with nothing otherwise. */
  lemma {:induction false} MergeOneToOne<L, R, K>(left: seq<L>, right: seq<R>, lkey: L -> K, rkey: R -> K)
    requires forall i :: 0 <= i < |left| ==> KeyAtMostOnce(right, rkey, lkey(left[i]))
    ensures var m := LeftMerge(left, right, lkey, rkey);
      |m| == |left| &&
      (forall i :: 0 <= i < |left| ==> m[i].0 == left[i]) &&
      (forall i :: 0 <= i < |left| ==>
        (m[i].1.None? <==> forall j :: 0 <= j < |right| ==> rkey(right[j]) != lkey(left[i]))) &&
      (forall i, j :: 0 <= i < |left| && 0 <= j < |right| && rkey(right[j]) == lkey(left[i]) ==>
        m[i].1 == Some(right[j]))
  {
    if left != [] {
      assert forall i :: 0 <= i < |left[1..]| ==> left[1..][i] == left[i + 1];
      MergeOneToOne(left[1..], right, lkey, rkey);
      MatchesUnique(right, rkey, lkey(left[0]));
      var head := RowsFor(left[0], Matches(right, rkey, lkey(left[0])));
      var tail := LeftMerge(left[1..], right, lkey, rkey);
      var m := LeftMerge(left, right, lkey, rkey);
      assert |head| == 1;
      assert m == head + tail;
      forall i | 0 < i < |left|
        ensures m[i] == tail[i - 1] && left[i] == left[1..][i - 1]
      {
      }
    }
  }

  /** Every right-hand side the merge emits is a row of the right table. */
  lemma {:induction false} MergedRightRows<L, R, K>(left: seq<L>, right: seq<R>, lkey: L -> K, rkey: R -> K)
    ensures forall i :: (0 <= i < |LeftMerge(left, right, lkey, rkey)| && LeftMerge(left, right, lkey, rkey)[i].1.Some?) ==>
      exists j :: 0 <= j < |right| && LeftMerge(left, right, lkey, rkey)[i].1.value == right[j]
  {
    if left != [] {
      MergedRightRows(left[1..], right, lkey, rkey);
      var ms := Matches(right, rkey, lkey(left[0]));
      var head := RowsFor(left[0], ms);
      var tail := LeftMerge(left[1..], right, lkey, rkey);
      var m := LeftMerge(left, right, lkey, rkey);
      assert m == head + tail;
      forall i | 0 <= i < |m| && m[i].1.Some?
        ensures exists j :: 0 <= j < |right| && m[i].1.value == right[j]
      {
        if i < |head| {
          assert ms != [];
          assert m[i].1 == Some(ms[i]);
          MatchesSubset(right, rkey, lkey(left[0]), i);
        } else {
          var t := i - |head|;
          assert m[i] == tail[t] && 0 <= t < |tail| && tail[t].1.Some?;
          var j :| 0 <= j < |right| && tail[t].1.value == right[j];
        }
      }
    }
  }

  lemma {:induction false} MatchesSubset<R, K>(right: seq<R>, key: R -> K, k: K, i: nat)
    requires i < |Matches(right, key, k)|
    ensures exists j :: 0 <= j < |right| && Matches(right, key, k)[i] == right[j]
  {
    var ms := Matches(right, key, k);
    if key(right[0]) == k {
      if i == 0 {
        assert ms[0] == right[0];
      } else {
        MatchesSubset(right[1..], key, k, i - 1);
        var j :| 0 <= j < |right[1..]| && Matches(right[1..], key, k)[i - 1] == right[1..][j];
        assert ms[i] == right[j + 1];
      }
    } else {
      MatchesSubset(right[1..], key, k, i);
      var j :| 0 <= j < |right[1..]| && Matches(right[1..], key, k)[i] == right[1..][j];
      assert ms[i] == right[j + 1];
    }
  }
}
